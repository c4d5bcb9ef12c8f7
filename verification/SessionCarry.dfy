/** Carrying an agent's bindings from the machine it leaves to the machine that receives it. */
module SessionCarry {
  import opened Prelude
  import opened Refs
  import opened SessionTables

  /** The agent's live references: what a move is admitted over. */
  function LiveRefs(b: map<Ref, Binding>, agent: string): set<Ref> {
    set r | r in b && b[r].agent == agent && b[r].endedAt.None?
  }

  function RefsOf(b: map<Ref, Binding>, agent: string): set<Ref> {
    set r | r in b && b[r].agent == agent
  }

  /** A finished row outside the plan travels as metadata only, held where it is now. */
  function CarriedRow(t: Tables, planned: set<Ref>, origin: Option<string>, r: Ref): Carried
    requires r in t.bindings
  {
    var row := t.bindings[r];
    Carried(r, if r !in planned && row.heldOn.None? then row.(heldOn := origin) else row, t.HistoryOf(r))
  }

  /** Every binding of the agent, when the plan and the live rows still agree. */
  function Exported(t: Tables, agent: string, planned: set<Ref>, origin: Option<string>): Result<map<Ref, Carried>, Refusal> {
    var refs := RefsOf(t.bindings, agent);
    if !(planned <= refs) || !(LiveRefs(t.bindings, agent) <= planned) then Err(BindingsDiffer)
    else if origin.None? && exists r :: r in refs && r !in planned && t.bindings[r].heldOn.None? then Err(OriginUnknown)
    else Ok(map r | r in refs :: CarriedRow(t, planned, origin, r))
  }

  /** What travels is exactly the agent's rows; live rows as they are, the others only as finished metadata. */
  lemma ExportedMeans(t: Tables, agent: string, planned: set<Ref>, origin: Option<string>)
    requires Sound(t) && Exported(t, agent, planned, origin).Ok?
    ensures var sent := Exported(t, agent, planned, origin).value;
      && (forall r :: r in sent <==> r in t.bindings && t.bindings[r].agent == agent)
      && (forall r :: r in planned ==> r in sent && sent[r].row == t.bindings[r])
      && (forall r :: r in sent && r !in planned ==> sent[r].row.endedAt.Some? && sent[r].row.heldOn.Some?)
      && (forall r :: r in sent ==> sent[r].ref == r && sent[r].history == t.HistoryOf(r) && GoodHistory(sent[r].history) && GoodRow(sent[r].row))
  {
    hide GoodHistory, Clash;
    EmptyIsGood();
    forall r | r in RefsOf(t.bindings, agent) && r !in planned ensures t.bindings[r].endedAt.Some? {
      assert r !in LiveRefs(t.bindings, agent);
    }
  }

  /** Nothing on the receiver stands in the way of the rows sent. */
  ghost predicate RoomFor(t: Tables, sent: map<Ref, Carried>) {
    && (forall r :: r in sent ==> r !in t.bindings && r !in t.history)
    && (forall r, q :: r in sent && q in t.bindings ==> !Clash(t.bindings[q], sent[r].row))
  }

  ghost predicate Arrived(t: Tables, c: Carried, agent: string, origin: Option<string>) {
    c.ref in t.bindings && t.bindings[c.ref] == InstalledRow(c, agent, origin) && t.HistoryOf(c.ref) == c.history
  }

  /** Rows sent together came from one sound store, so they do not clash with each other. */
  ghost predicate Coherent(sent: map<Ref, Carried>) {
    && (forall r :: r in sent ==> sent[r].ref == r)
    && (forall r, q :: r in sent && q in sent && r != q ==> !Clash(sent[r].row, sent[q].row))
  }

  lemma ExportCoherent(t: Tables, agent: string, planned: set<Ref>, origin: Option<string>)
    requires Sound(t) && Exported(t, agent, planned, origin).Ok?
    ensures Coherent(Exported(t, agent, planned, origin).value)
  {
    hide GoodHistory;
    var sent := Exported(t, agent, planned, origin).value;
    forall r, q | r in sent && q in sent && r != q ensures !Clash(sent[r].row, sent[q].row) {
      assert !Clash(t.bindings[r], t.bindings[q]);
    }
  }

  /** The state of an installation part-way: what was sent so far has arrived, the rest is not there yet. */
  ghost predicate PartWay(t: Tables, next: Tables, agent: string, origin: Option<string>, done: seq<Ref>, sent: map<Ref, Carried>) {
    && next.bindings.Keys == t.bindings.Keys + (set r | r in done && r in sent)
    && next.history.Keys <= next.bindings.Keys + t.history.Keys
    && (forall r :: r in t.bindings ==> next.bindings[r] == t.bindings[r])
    && (forall r :: r in done && r in sent ==> Arrived(next, sent[r], agent, origin))
  }

  lemma NoneInTheWay(t: Tables, before: Tables, agent: string, origin: Option<string>, done: seq<Ref>, r: Ref, sent: map<Ref, Carried>)
    requires RoomFor(t, sent) && Coherent(sent) && r in sent && PartWay(t, before, agent, origin, done, sent) && r !in before.bindings
    ensures !Collides(before.bindings, sent[r].row) && r !in before.history
  {
    hide Clash, InstalledRow;
    forall q | q in before.bindings ensures !Clash(before.bindings[q], sent[r].row) {
      if q !in t.bindings {
        assert Arrived(before, sent[q], agent, origin);
        InstalledClash(sent[q], agent, origin, sent[r].row);
      }
    }
  }

  /** Adding a row of a fresh reference leaves what has arrived. */
  lemma ArrivedStays(t: Tables, c: Carried, agent: string, origin: Option<string>, r: Ref, row: Binding, entries: seq<Entry>)
    requires Arrived(t, c, agent, origin) && r !in t.bindings
    ensures Arrived(Tables(t.bindings[r := row], WithHistory(t.history, r, entries)), c, agent, origin)
  {
    hide InstalledRow;
  }

  lemma PartWayNext(t: Tables, before: Tables, next: Tables, agent: string, origin: Option<string>, done: seq<Ref>, r: Ref, sent: map<Ref, Carried>)
    requires PartWay(t, before, agent, origin, done, sent) && r in sent
    requires next.bindings.Keys == before.bindings.Keys + {r} && next.history.Keys <= before.history.Keys + {r}
    requires forall q :: q in before.bindings ==> next.bindings[q] == before.bindings[q]
    requires forall q :: q in done && q in sent ==> Arrived(next, sent[q], agent, origin)
    requires Arrived(next, sent[r], agent, origin)
    ensures PartWay(t, next, agent, origin, done + [r], sent)
  {
    hide Arrived;
    assert forall q :: q in done + [r] <==> q in done || q == r;
  }

  lemma InstallsAsCarried(before: Tables, agent: string, at: int, origin: Option<string>, r: Ref, sent: map<Ref, Carried>)
    requires r in sent && sent[r].ref == r && r !in before.bindings && r !in before.history && !Collides(before.bindings, sent[r].row)
    ensures InstallOne(before, agent, at, origin, r, sent)
         == Tables(before.bindings[r := InstalledRow(sent[r], agent, origin)], WithHistory(before.history, r, sent[r].history))
    ensures Arrived(InstallOne(before, agent, at, origin, r, sent), sent[r], agent, origin)
  {
    hide Collides, InstalledRow;
  }

  lemma ArrivesNext(t: Tables, before: Tables, agent: string, at: int, origin: Option<string>, done: seq<Ref>, r: Ref, sent: map<Ref, Carried>)
    requires RoomFor(t, sent) && Coherent(sent) && r in sent && PartWay(t, before, agent, origin, done, sent)
    ensures PartWay(t, InstallOne(before, agent, at, origin, r, sent), agent, origin, done + [r], sent)
  {
    hide RoomFor, Coherent, Collides, Arrived, InstalledRow;
    var next := InstallOne(before, agent, at, origin, r, sent);
    if r !in before.bindings {
      NoneInTheWay(t, before, agent, origin, done, r, sent);
      SentUnderOwnRef(sent, r);
      InstallsAsCarried(before, agent, at, origin, r, sent);
      forall q | q in done && q in sent ensures Arrived(next, sent[q], agent, origin) {
        ArrivedStays(before, sent[q], agent, origin, r, InstalledRow(sent[r], agent, origin), sent[r].history);
      }
    } else {
      AlreadyArrived(t, before, agent, origin, done, r, sent);
    }
    PartWayNext(t, before, next, agent, origin, done, r, sent);
  }

  lemma AlreadyArrived(t: Tables, before: Tables, agent: string, origin: Option<string>, done: seq<Ref>, r: Ref, sent: map<Ref, Carried>)
    requires RoomFor(t, sent) && r in sent && PartWay(t, before, agent, origin, done, sent) && r in before.bindings
    ensures Arrived(before, sent[r], agent, origin)
  {
    hide Arrived, Clash;
  }

  lemma SentUnderOwnRef(sent: map<Ref, Carried>, r: Ref)
    requires Coherent(sent) && r in sent
    ensures sent[r].ref == r
  {
  }

  lemma InstalledClash(c: Carried, agent: string, origin: Option<string>, row: Binding)
    ensures Clash(InstalledRow(c, agent, origin), row) <==> Clash(c.row, row)
  {
  }

  lemma {:induction false} AllArrive(t: Tables, agent: string, at: int, origin: Option<string>, refs: seq<Ref>, sent: map<Ref, Carried>)
    requires RoomFor(t, sent) && Coherent(sent) && forall r :: r in refs ==> r in sent
    ensures PartWay(t, InstallAll(t, agent, at, origin, refs, sent), agent, origin, refs, sent)
  {
    hide RoomFor, Coherent, InstallOne, Arrived;
    if refs != [] {
      var (front, last) := (refs[..|refs| - 1], refs[|refs| - 1]);
      AllArrive(t, agent, at, origin, front, sent);
      ArrivesNext(t, InstallAll(t, agent, at, origin, front, sent), agent, at, origin, front, last, sent);
      assert refs == front + [last];
    }
  }

  /**
   * The carry round trip. Export an agent from one sound store and install it
   * on a machine whose own sessions do not clash with it: every binding of the
   * agent arrives under the same reference with its host session, runner, end
   * and whole history; a finished session held on the receiving machine itself
   * stops being marked as held elsewhere.
   */
  lemma ExportThenInstall(source: Tables, agent: string, planned: set<Ref>, from: Option<string>,
                          target: Tables, at: int, to: Option<string>, refs: seq<Ref>)
    requires Sound(source) && Exported(source, agent, planned, from).Ok?
    requires RoomFor(target, Exported(source, agent, planned, from).value)
    requires var sent := Exported(source, agent, planned, from).value;
      forall r :: r in refs <==> r in planned || (r in sent && sent[r].row.heldOn.Some?)
    ensures var (sent, next) := (Exported(source, agent, planned, from).value, InstallAll(target, agent, at, to, refs, Exported(source, agent, planned, from).value));
      forall r :: r in source.bindings && source.bindings[r].agent == agent ==>
        && r in next.bindings && next.HistoryOf(r) == source.HistoryOf(r)
        && next.bindings[r] == source.bindings[r].(heldOn := if sent[r].row.heldOn == to then None else sent[r].row.heldOn)
  {
    hide Clash, GoodHistory, InstallAll, Exported, Sound, Coherent, RoomFor;
    ExportedMeans(source, agent, planned, from);
    ExportCoherent(source, agent, planned, from);
    var sent := Exported(source, agent, planned, from).value;
    AllArrive(target, agent, at, to, refs, sent);
    forall r | r in source.bindings && source.bindings[r].agent == agent
      ensures r in refs && sent[r].row == source.bindings[r].(heldOn := sent[r].row.heldOn)
    {
      SentRow(source, agent, planned, from, r);
    }
  }

  lemma SentRow(t: Tables, agent: string, planned: set<Ref>, origin: Option<string>, r: Ref)
    requires Exported(t, agent, planned, origin).Ok? && r in Exported(t, agent, planned, origin).value
    ensures r in t.bindings
    ensures var sent := Exported(t, agent, planned, origin).value; sent[r].row == t.bindings[r].(heldOn := sent[r].row.heldOn)
  {
  }

  // ---------------------------------------------------------------- the counts

  /** What became of the carried rows; `skipped` pairs a finished row left out with the local row in its way. */
  datatype Outcome = Outcome(installed: nat, placeholders: nat, kept: nat, skipped: seq<(Ref, Ref)>)

  const NOTHING_DONE := Outcome(0, 0, 0, [])

  ghost function Holders(b: map<Ref, Binding>, row: Binding): set<Ref> { set q | q in b && Clash(b[q], row) }

  lemma HolderExists(b: map<Ref, Binding>, row: Binding)
    requires Collides(b, row)
    ensures exists q :: FirstRef(Holders(b, row), q)
  {
    hide RefBefore, Clash;
    var q :| q in b && Clash(b[q], row);
    assert q in Holders(b, row);
    FirstRefExists(Holders(b, row));
  }

  /** The first local row in the way of this one, by reference. */
  ghost function Holder(b: map<Ref, Binding>, row: Binding): (q: Ref)
    requires Collides(b, row)
    ensures FirstRef(Holders(b, row), q)
  {
    HolderExists(b, row);
    var q :| FirstRef(Holders(b, row), q);
    q
  }

  lemma HolderUnique(b: map<Ref, Binding>, row: Binding, q: Ref)
    requires Collides(b, row) && FirstRef(Holders(b, row), q)
    ensures q == Holder(b, row)
  {
    FirstRefUnique(Holders(b, row), q, Holder(b, row));
  }

  ghost function TallyOne(t: Tables, o: Outcome, r: Ref, carried: map<Ref, Carried>): Outcome {
    if r !in carried then o
    else if r in t.bindings then o.(kept := o.kept + 1)
    else if !Collides(t.bindings, carried[r].row) then o.(installed := o.installed + 1)
    else if carried[r].row.heldOn.None? then o.(placeholders := o.placeholders + 1)
    else o.(kept := o.kept + 1, skipped := o.skipped + [(r, Holder(t.bindings, carried[r].row))])
  }

  /** The counts of an installation: a reference that comes again is not counted again. */
  ghost function Tally(t: Tables, agent: string, at: int, origin: Option<string>, refs: seq<Ref>, carried: map<Ref, Carried>): Outcome {
    if refs == [] then NOTHING_DONE
    else
      var (front, last) := (refs[..|refs| - 1], refs[|refs| - 1]);
      var o := Tally(t, agent, at, origin, front, carried);
      if last in front then o else TallyOne(InstallAll(t, agent, at, origin, front, carried), o, last, carried)
  }

  /** The carried references that came with their row, as a placeholder, and not at all. */
  ghost function NowAsCarried(t: Tables, next: Tables, agent: string, origin: Option<string>, refs: seq<Ref>, carried: map<Ref, Carried>): set<Ref> {
    set r | r in refs && r in carried && r !in t.bindings && r in next.bindings && next.bindings[r] == InstalledRow(carried[r], agent, origin)
  }

  ghost function NowPlaceholder(t: Tables, next: Tables, agent: string, origin: Option<string>, refs: seq<Ref>, carried: map<Ref, Carried>): set<Ref> {
    set r | r in refs && r in carried && r !in t.bindings && r in next.bindings && next.bindings[r] != InstalledRow(carried[r], agent, origin)
  }

  ghost function NotTaken(t: Tables, next: Tables, refs: seq<Ref>, carried: map<Ref, Carried>): set<Ref> {
    set r | r in refs && r in carried && (r in t.bindings || r !in next.bindings)
  }

  /** Every skipped row is out, with a local row in its way; and whatever is out was skipped. */
  ghost predicate SkipsOut(next: Tables, refs: seq<Ref>, carried: map<Ref, Carried>, skipped: seq<(Ref, Ref)>) {
    && (forall i :: 0 <= i < |skipped| ==> var (r, q) := skipped[i];
          r in refs && r in carried && carried[r].row.heldOn.Some? && r !in next.bindings
          && q in next.bindings && Clash(next.bindings[q], carried[r].row))
    && (forall r :: r in refs && r !in next.bindings ==> exists i :: 0 <= i < |skipped| && skipped[i].0 == r)
  }

  ghost predicate Counted(t: Tables, next: Tables, agent: string, origin: Option<string>, refs: seq<Ref>, carried: map<Ref, Carried>, o: Outcome) {
    && o.installed == |NowAsCarried(t, next, agent, origin, refs, carried)|
    && o.placeholders == |NowPlaceholder(t, next, agent, origin, refs, carried)|
    && o.kept == |NotTaken(t, next, refs, carried)|
    && SkipsOut(next, refs, carried, o.skipped)
  }

  lemma {:induction false} InstallAllFrame(t: Tables, agent: string, at: int, origin: Option<string>, refs: seq<Ref>, carried: map<Ref, Carried>)
    ensures var next := InstallAll(t, agent, at, origin, refs, carried);
      forall q :: q !in refs ==> (q in next.bindings <==> q in t.bindings)
  {
    hide InstallOne;
    if refs != [] {
      var (front, last) := (refs[..|refs| - 1], refs[|refs| - 1]);
      InstallAllFrame(t, agent, at, origin, front, carried);
      TouchesOne(InstallAll(t, agent, at, origin, front, carried), agent, at, origin, last, carried);
    }
  }

  /** Only `r` differs between the two tables, and only by being added. */
  ghost predicate Touches(before: Tables, next: Tables, r: Ref) {
    && (forall q :: q != r ==> (q in next.bindings <==> q in before.bindings))
    && (forall q :: q in before.bindings ==> q in next.bindings && next.bindings[q] == before.bindings[q])
  }

  ghost predicate Skips(next: Tables, o: Outcome, p: Outcome, r: Ref, row: Binding) {
    exists q :: p == o.(kept := o.kept + 1, skipped := o.skipped + [(r, q)]) && row.heldOn.Some? && q in next.bindings && Clash(next.bindings[q], row)
  }

  /** How the counts follow what became of one reference. */
  ghost predicate CountedOne(before: Tables, next: Tables, agent: string, origin: Option<string>, r: Ref, carried: map<Ref, Carried>, o: Outcome, p: Outcome) {
    if r !in carried then p == o && r in next.bindings
    else if r in before.bindings then p == o.(kept := o.kept + 1)
    else if r !in next.bindings then Skips(next, o, p, r, carried[r].row)
    else if next.bindings[r] == InstalledRow(carried[r], agent, origin) then p == o.(installed := o.installed + 1)
    else p == o.(placeholders := o.placeholders + 1)
  }

  lemma FateOfOne(before: Tables, agent: string, at: int, origin: Option<string>, r: Ref, carried: map<Ref, Carried>, o: Outcome)
    ensures CountedOne(before, InstallOne(before, agent, at, origin, r, carried), agent, origin, r, carried, o, TallyOne(before, o, r, carried))
  {
    hide RefBefore;
    if r in carried && r !in before.bindings && Collides(before.bindings, carried[r].row) {
      var q := Holder(before.bindings, carried[r].row);
      assert q in Holders(before.bindings, carried[r].row);
    }
  }

  lemma CountsGrow(t: Tables, before: Tables, next: Tables, agent: string, origin: Option<string>, front: seq<Ref>, r: Ref, carried: map<Ref, Carried>)
    requires Touches(before, next, r) && r !in front
    ensures NowAsCarried(t, next, agent, origin, front + [r], carried)
         == NowAsCarried(t, before, agent, origin, front, carried) + NowAsCarried(t, next, agent, origin, [r], carried)
    ensures NowPlaceholder(t, next, agent, origin, front + [r], carried)
         == NowPlaceholder(t, before, agent, origin, front, carried) + NowPlaceholder(t, next, agent, origin, [r], carried)
    ensures NotTaken(t, next, front + [r], carried) == NotTaken(t, before, front, carried) + NotTaken(t, next, [r], carried)
  {
    hide InstalledRow;
  }

  lemma AddsOne(a: set<Ref>, b: set<Ref>, r: Ref)
    requires r !in a && b <= {r}
    ensures |a + b| == |a| + if r in b then 1 else 0
  {
    if r in b { assert b == {r}; } else { assert b == {}; }
  }

  lemma SkipsGrow(before: Tables, next: Tables, front: seq<Ref>, r: Ref, carried: map<Ref, Carried>, o: Outcome, p: Outcome)
    requires SkipsOut(before, front, carried, o.skipped) && Touches(before, next, r) && r !in front
    requires if r in next.bindings then p.skipped == o.skipped else r in carried && Skips(next, o, p, r, carried[r].row)
    ensures SkipsOut(next, front + [r], carried, p.skipped)
  {
    hide Clash;
    assert forall i :: 0 <= i < |o.skipped| ==> p.skipped[i] == o.skipped[i];
    forall s | s in front + [r] && s !in next.bindings ensures exists i :: 0 <= i < |p.skipped| && p.skipped[i].0 == s {
      if s == r {
        assert p.skipped[|o.skipped|].0 == r;
      } else {
        var i :| 0 <= i < |o.skipped| && o.skipped[i].0 == s;
        assert p.skipped[i].0 == s;
      }
    }
  }

  /** The counts of one reference, as the three sets of that reference alone. */
  lemma CountsOfOne(t: Tables, before: Tables, next: Tables, agent: string, origin: Option<string>, r: Ref,
                    carried: map<Ref, Carried>, o: Outcome, p: Outcome)
    requires Touches(before, next, r) && (r in before.bindings <==> r in t.bindings)
    requires CountedOne(before, next, agent, origin, r, carried, o, p)
    ensures p.installed == o.installed + if r in NowAsCarried(t, next, agent, origin, [r], carried) then 1 else 0
    ensures p.placeholders == o.placeholders + if r in NowPlaceholder(t, next, agent, origin, [r], carried) then 1 else 0
    ensures p.kept == o.kept + if r in NotTaken(t, next, [r], carried) then 1 else 0
    ensures if r in next.bindings then p.skipped == o.skipped else r in carried && Skips(next, o, p, r, carried[r].row)
  {
    hide Clash, InstalledRow;
  }

  lemma NewCounted(t: Tables, before: Tables, next: Tables, agent: string, origin: Option<string>, front: seq<Ref>, r: Ref,
                   carried: map<Ref, Carried>, o: Outcome, p: Outcome)
    requires Counted(t, before, agent, origin, front, carried, o) && r !in front && Touches(before, next, r)
    requires (r in before.bindings <==> r in t.bindings) && CountedOne(before, next, agent, origin, r, carried, o, p)
    ensures Counted(t, next, agent, origin, front + [r], carried, p)
  {
    hide InstalledRow, SkipsOut, Skips, Touches, CountedOne;
    CountsOfOne(t, before, next, agent, origin, r, carried, o, p);
    SkipsGrow(before, next, front, r, carried, o, p);
    hide Clash;
    CountsGrow(t, before, next, agent, origin, front, r, carried);
    AddsOne(NowAsCarried(t, before, agent, origin, front, carried), NowAsCarried(t, next, agent, origin, [r], carried), r);
    AddsOne(NowPlaceholder(t, before, agent, origin, front, carried), NowPlaceholder(t, next, agent, origin, [r], carried), r);
    AddsOne(NotTaken(t, before, front, carried), NotTaken(t, next, [r], carried), r);
  }

  /**
   * The counts say what happened, references repeated or not: how many carried
   * rows are now here as they were sent, how many only as a placeholder, and
   * how many the local rows won over; and the skipped ones are exactly those
   * now absent, each with a local row in its way.
   */
  lemma {:induction false} TallyCounts(t: Tables, agent: string, at: int, origin: Option<string>, refs: seq<Ref>, carried: map<Ref, Carried>)
    ensures Counted(t, InstallAll(t, agent, at, origin, refs, carried), agent, origin, refs, carried, Tally(t, agent, at, origin, refs, carried))
  {
    hide InstallOne, TallyOne, Counted, CountedOne, Touches;
    if refs == [] {
      NothingCounted(t, agent, origin, carried);
    } else {
      var (front, last) := (refs[..|refs| - 1], refs[|refs| - 1]);
      var before := InstallAll(t, agent, at, origin, front, carried);
      var o := Tally(t, agent, at, origin, front, carried);
      TallyCounts(t, agent, at, origin, front, carried);
      assert refs == front + [last];
      if last in front {
        AgainSettled(t, before, agent, at, origin, front, last, carried, o);
        AgainCounted(t, before, InstallOne(before, agent, at, origin, last, carried), agent, origin, front, last, carried, o);
      } else {
        InstallAllFrame(t, agent, at, origin, front, carried);
        TouchesOne(before, agent, at, origin, last, carried);
        FateOfOne(before, agent, at, origin, last, carried, o);
        NewCounted(t, before, InstallOne(before, agent, at, origin, last, carried), agent, origin, front, last, carried, o, TallyOne(before, o, last, carried));
      }
    }
  }

  lemma NothingCounted(t: Tables, agent: string, origin: Option<string>, carried: map<Ref, Carried>)
    ensures Counted(t, t, agent, origin, [], carried, NOTHING_DONE)
  {
  }

  lemma TouchesOne(t: Tables, agent: string, at: int, origin: Option<string>, r: Ref, carried: map<Ref, Carried>)
    ensures Touches(t, InstallOne(t, agent, at, origin, r, carried), r)
  {
    hide Collides, InstalledRow;
  }

  /** Installing a reference again changes nothing: it has its row, or it is still in the way of a local one. */
  lemma AgainSettled(t: Tables, before: Tables, agent: string, at: int, origin: Option<string>, front: seq<Ref>, last: Ref,
                     carried: map<Ref, Carried>, o: Outcome)
    requires Counted(t, before, agent, origin, front, carried, o) && last in front
    ensures InstallOne(before, agent, at, origin, last, carried) == before
  {
    hide Clash, InstalledRow;
    if last !in before.bindings {
      var i :| 0 <= i < |o.skipped| && o.skipped[i].0 == last;
      assert o.skipped[i].1 in before.bindings && Clash(before.bindings[o.skipped[i].1], carried[last].row);
    }
  }

  /** A reference that comes again changes nothing and was counted. */
  lemma AgainCounted(t: Tables, before: Tables, next: Tables, agent: string, origin: Option<string>, front: seq<Ref>, last: Ref,
                     carried: map<Ref, Carried>, o: Outcome)
    requires Counted(t, before, agent, origin, front, carried, o) && last in front && next == before
    ensures Counted(t, next, agent, origin, front + [last], carried, o)
  {
    hide Clash, InstalledRow;
    var refs := front + [last];
    assert NowAsCarried(t, next, agent, origin, refs, carried) == NowAsCarried(t, before, agent, origin, front, carried);
    assert NowPlaceholder(t, next, agent, origin, refs, carried) == NowPlaceholder(t, before, agent, origin, front, carried);
    assert NotTaken(t, next, refs, carried) == NotTaken(t, before, front, carried);
  }
}
