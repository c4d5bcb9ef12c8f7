/** A client that follows the feed by cursor holds what a client fetching everything holds. */
module CursorSync {
  import opened Prelude
  import opened Catalog
  import opened Status
  import opened StatusFeed
  import opened FeedSync

  /** What a client reads through: its oracle, the documents behind feed ids, and its pins. */
  datatype Site = Site(o: Oracle, fetch: string -> (string, string), pins: map<string, Pin>)

  function Key(w: FeedWrite): string { VersionKey(w.record.name, w.record.version) }

  function ServedRecord(site: Site, item: FeedItem): FeedRecord {
    FeedRecord(item.id, site.fetch(item.id).0, site.fetch(item.id).1)
  }

  function Served(site: Site, items: seq<FeedItem>): (rs: seq<FeedRecord>)
    ensures |rs| == |items| && forall i :: 0 <= i < |rs| ==> rs[i] == ServedRecord(site, items[i])
  {
    seq(|items|, i requires 0 <= i < |items| => ServedRecord(site, items[i]))
  }

  /** The document behind a write is authentic for this client and says what the log says. */
  ghost predicate Signed(site: Site, chain: seq<StatusKey>, w: FeedWrite) {
    var (text, signature) := site.fetch(w.id);
    && w.feedSeq >= 1 && Key(w) in site.pins
    && Authenticate(site.o, text, signature, chain, site.pins[Key(w)]).Ok?
    && Authenticate(site.o, text, signature, chain, site.pins[Key(w)]).value.record == w.record
  }

  ghost function HoldOf(site: Site, chain: seq<StatusKey>, w: FeedWrite): Held
    requires Signed(site, chain, w)
  {
    var (text, signature) := site.fetch(w.id);
    Authenticate(site.o, text, signature, chain, site.pins[Key(w)]).value
  }

  ghost predicate AllSigned(site: Site, chain: seq<StatusKey>, log: seq<FeedWrite>) {
    forall i :: 0 <= i < |log| ==> Signed(site, chain, log[i])
  }

  ghost predicate CursorsRise(log: seq<FeedWrite>) {
    forall i, j :: 0 <= i < j < |log| ==> log[i].feedSeq < log[j].feedSeq
  }

  /** Write `i` is the one write `j` of the same version replaced. */
  ghost predicate Precedes(log: seq<FeedWrite>, i: nat, j: nat) {
    i < j < |log| && Key(log[i]) == Key(log[j]) && forall k :: i < k < j ==> Key(log[k]) != Key(log[j])
  }

  /**
   * A log a registry may keep: signed writes at rising cursors, each one a
   * replacement that `Compare` applies over the write it replaced.
   */
  ghost predicate GoodLog(site: Site, chain: seq<StatusKey>, log: seq<FeedWrite>) {
    && AllSigned(site, chain, log)
    && CursorsRise(log)
    && forall i: nat, j: nat :: Precedes(log, i, j) ==> Compare(Some(HoldOf(site, chain, log[i])), HoldOf(site, chain, log[j])) == Ok(Applied)
  }

  function LastOf(log: seq<FeedWrite>, k: string): (r: Option<nat>)
    ensures r.None? <==> forall i :: 0 <= i < |log| ==> Key(log[i]) != k
    ensures r.Some? ==> r.value < |log| && Key(log[r.value]) == k && forall i :: r.value < i < |log| ==> Key(log[i]) != k
  {
    if log == [] then None else if Key(log[|log| - 1]) == k then Some(|log| - 1) else LastOf(log[..|log| - 1], k)
  }

  /** The hold a client should have for `k` after this much of the log. */
  ghost function Due(site: Site, chain: seq<StatusKey>, log: seq<FeedWrite>, k: string): Option<Held>
    requires AllSigned(site, chain, log)
  {
    match LastOf(log, k)
    case None => None
    case Some(i) => Some(HoldOf(site, chain, log[i]))
  }

  ghost predicate HoldsLatest(site: Site, chain: seq<StatusKey>, log: seq<FeedWrite>, held: map<string, Held>)
    requires AllSigned(site, chain, log)
  {
    forall k :: Get(held, k) == Due(site, chain, log, k)
  }

  lemma SameHolds(site: Site, chain: seq<StatusKey>, log: seq<FeedWrite>, a: map<string, Held>, b: map<string, Held>)
    requires AllSigned(site, chain, log) && HoldsLatest(site, chain, log, a) && HoldsLatest(site, chain, log, b)
    ensures a == b
  {
    hide Due;
    forall k | k in a || k in b ensures k in a && k in b && a[k] == b[k] {
      assert Get(a, k) == Get(b, k);
    }
  }

  /**
   * What a client at the cursor of the first `p` writes may hold for `k`: the
   * latest of them, or a later write that reached it although its reply was
   * not accepted as a whole. Nothing is held only where they write nothing.
   */
  ghost predicate Ahead(site: Site, chain: seq<StatusKey>, log: seq<FeedWrite>, p: nat, k: string, h: Option<Held>)
    requires AllSigned(site, chain, log) && p <= |log|
  {
    match h
    case None => forall j :: 0 <= j < p ==> Key(log[j]) != k
    case Some(held) => exists i: nat ::
      i < |log| && Key(log[i]) == k && held == HoldOf(site, chain, log[i]) && forall j :: i < j < p ==> Key(log[j]) != k
  }

  ghost predicate AllAhead(site: Site, chain: seq<StatusKey>, log: seq<FeedWrite>, p: nat, held: map<string, Held>)
    requires AllSigned(site, chain, log) && p <= |log|
  {
    forall k :: Ahead(site, chain, log, p, k, Get(held, k))
  }

  // ------------------------------------------------ what a client can read

  /** The part of the key chain and of the pins a client has at some time. */
  datatype Known = Known(chain: seq<StatusKey>, pins: map<string, Pin>)

  ghost predicate PartKnown(site: Site, chain: seq<StatusKey>, known: Known) {
    && known.chain <= chain
    && forall k :: k in known.pins ==> k in site.pins && known.pins[k] == site.pins[k]
  }

  /** The client has the signer's key and a pin for the version. */
  ghost predicate Readable(site: Site, chain: seq<StatusKey>, known: Known, w: FeedWrite)
    requires Signed(site, chain, w)
  {
    HoldOf(site, chain, w).signer < |known.chain| && Key(w) in known.pins
  }

  // ------------------------------------------------------ one write replaces

  lemma HoldIsSigned(site: Site, chain: seq<StatusKey>, w: FeedWrite)
    requires Signed(site, chain, w)
    ensures var h := HoldOf(site, chain, w);
      !h.bundled && h.record == w.record && '@' !in w.record.version
      && Parse(site.o, site.fetch(w.id).0) == Ok((h.record, h.canonical))
  {
    hide Authenticate, VersionKey, RecordValid;
    var (text, signature) := site.fetch(w.id);
    var h := HoldOf(site, chain, w);
    AuthenticMeans(site.o, text, signature, chain, site.pins[Key(w)], h);
    VersionHasNoAt(h.record);
  }

  lemma VersionHasNoAt(r: StatusRecord)
    requires RecordValid(r)
    ensures '@' !in r.version
  {
    hide Semver.ParseVersion;
    if '@' in r.version { Semver.VersionTextChars(r.version, '@'); }
  }

  lemma SupersedesTransitive(a: Held, b: Held, c: Held)
    requires Supersedes(a, b) && Supersedes(b, c)
    ensures Supersedes(a, c)
  {
  }

  /** Skipping intermediate writes is harmless: any later write of a version supersedes any earlier one. */
  lemma {:induction false} LaterSupersedes(site: Site, chain: seq<StatusKey>, log: seq<FeedWrite>, i: nat, j: nat)
    requires GoodLog(site, chain, log) && i < j < |log| && Key(log[i]) == Key(log[j])
    ensures Supersedes(HoldOf(site, chain, log[i]), HoldOf(site, chain, log[j]))
    decreases j
  {
    hide HoldOf, Key, Supersedes, Signed;
    var k := LastOf(log[..j], Key(log[j])).value;
    assert i <= k by { assert Key(log[..j][i]) == Key(log[j]); }
    assert forall l :: 0 <= l < j ==> log[..j][l] == log[l];
    assert Precedes(log, k, j);
    AppliedSupersedes(site, chain, log[k], log[j]);
    if i < k {
      LaterSupersedes(site, chain, log, i, k);
      SupersedesTransitive(HoldOf(site, chain, log[i]), HoldOf(site, chain, log[k]), HoldOf(site, chain, log[j]));
    }
  }

  lemma AppliedSupersedes(site: Site, chain: seq<StatusKey>, a: FeedWrite, b: FeedWrite)
    requires Signed(site, chain, a) && Signed(site, chain, b)
    requires Compare(Some(HoldOf(site, chain, a)), HoldOf(site, chain, b)) == Ok(Applied)
    ensures Supersedes(HoldOf(site, chain, a), HoldOf(site, chain, b))
  {
    hide HoldOf, Signed;
    HoldIsSigned(site, chain, b);
  }

  /** A document authenticates under part of the chain as under all of it, or its key is not known yet. */
  lemma AuthenticatePart(site: Site, chain: seq<StatusKey>, known: Known, w: FeedWrite)
    requires Signed(site, chain, w) && PartKnown(site, chain, known)
    ensures var (text, signature) := site.fetch(w.id);
      Authenticate(site.o, text, signature, known.chain, site.pins[Key(w)])
      == if HoldOf(site, chain, w).signer < |known.chain| then Ok(HoldOf(site, chain, w)) else Err(KeyUnknown)
  {
    hide Key, Parse, Retirement;
    var (text, signature) := site.fetch(w.id);
    var h := HoldOf(site, chain, w);
    assert chain == known.chain + chain[|known.chain|..];
    AuthenticMeans(site.o, text, signature, chain, site.pins[Key(w)], h);
    if h.signer < |known.chain| {
      AuthenticUnderPrefix(site.o, text, signature, known.chain, chain[|known.chain|..], site.pins[Key(w)]);
    } else {
      assert forall j :: 0 <= j < |known.chain| ==> known.chain[j] == chain[j];
    }
  }

  /** Over anything the client may hold, the latest write of a version is taken exactly when it can be read. */
  lemma ApplyLatest(site: Site, chain: seq<StatusKey>, known: Known, log: seq<FeedWrite>, p: nat, w: FeedWrite, held: map<string, Held>)
    requires GoodLog(site, chain, log) && AllSigned(site, chain, log) && PartKnown(site, chain, known)
    requires p <= |log| && IsLast(log, w) && Ahead(site, chain, log, p, Key(w), Get(held, Key(w)))
    ensures Signed(site, chain, w)
    ensures var r := ApplyRecord(site.o, held, ServedRecord(site, FeedItem(w.feedSeq, w.id)), known.chain, known.pins);
      if Readable(site, chain, known, w) then r.Ok? && r.value.1 == Key(w) && r.value.2 == HoldOf(site, chain, w)
      else r.Err? && r.error in {KeyUnknown, RecordMismatch}
  {
    hide VersionKey, Authenticate, Parse, Supersedes, GoodLog, HoldOf;
    var (k, q) := (Key(w), LastOf(log, Key(w)).value);
    assert Signed(site, chain, log[q]);
    HoldIsSigned(site, chain, w);
    AuthenticatePart(site, chain, known, w);
    if Get(held, k).Some? {
      var i: nat :| i < |log| && Key(log[i]) == k && held[k] == HoldOf(site, chain, log[i]) && forall j :: i < j < p ==> Key(log[j]) != k;
      HoldIsSigned(site, chain, log[i]);
      if i != q {
        LaterSupersedes(site, chain, log, i, q);
        SupersededApplies(HoldOf(site, chain, log[i]), HoldOf(site, chain, w));
      }
    }
  }

  lemma GoodIsSigned(site: Site, chain: seq<StatusKey>, log: seq<FeedWrite>)
    requires GoodLog(site, chain, log)
    ensures AllSigned(site, chain, log) && CursorsRise(log)
    ensures forall m :: 0 <= m <= |log| ==> AllSigned(site, chain, log[..m])
  {
    hide Signed;
  }

  lemma SupersededApplies(a: Held, b: Held)
    requires Supersedes(a, b)
    ensures Compare(Some(a), b) == Ok(Applied)
  {
  }

  // ------------------------------------------------------------- one reply

  /** Writes that are each the last of a version of the log, one per version. */
  ghost predicate LastWrites(log: seq<FeedWrite>, ws: seq<FeedWrite>) {
    && (forall a :: 0 <= a < |ws| ==> IsLast(log, ws[a]))
    && (forall a, b :: 0 <= a < b < |ws| ==> Key(ws[a]) != Key(ws[b]))
  }

  ghost predicate IsLast(log: seq<FeedWrite>, w: FeedWrite) {
    LastOf(log, Key(w)).Some? && log[LastOf(log, Key(w)).value] == w
  }

  ghost predicate KeyAmong(ws: seq<FeedWrite>, k: string) { exists a :: 0 <= a < |ws| && Key(ws[a]) == k }

  /** Of these writes, those the client can read are what it holds. */
  ghost predicate Taken(site: Site, chain: seq<StatusKey>, known: Known, ws: seq<FeedWrite>, held: map<string, Held>) {
    forall a :: 0 <= a < |ws| ==>
      Signed(site, chain, ws[a]) && (Readable(site, chain, known, ws[a]) ==> Get(held, Key(ws[a])) == Some(HoldOf(site, chain, ws[a])))
  }

  ghost predicate AllReadable(site: Site, chain: seq<StatusKey>, known: Known, ws: seq<FeedWrite>) {
    forall a :: 0 <= a < |ws| ==> Signed(site, chain, ws[a]) && Readable(site, chain, known, ws[a])
  }

  lemma TakeNext(site: Site, chain: seq<StatusKey>, known: Known, log: seq<FeedWrite>, p: nat, ws: seq<FeedWrite>, w: FeedWrite, held: map<string, Held>)
    requires GoodLog(site, chain, log) && AllSigned(site, chain, log) && PartKnown(site, chain, known) && p <= |log|
    requires AllAhead(site, chain, log, p, held) && Taken(site, chain, known, ws, held)
    requires IsLast(log, w) && forall a :: 0 <= a < |ws| ==> Key(ws[a]) != Key(w)
    ensures var r := ApplyRecord(site.o, held, ServedRecord(site, FeedItem(w.feedSeq, w.id)), known.chain, known.pins);
      var next := if r.Ok? then held[r.value.1 := r.value.2] else held;
      && AllAhead(site, chain, log, p, next) && Taken(site, chain, known, ws + [w], next)
      && (r.Ok? <==> Readable(site, chain, known, w)) && (r.Err? ==> !r.error.FeedRollback?)
  {
    hide GoodLog, Signed, HoldOf, Key, ApplyRecord, ServedRecord, LastOf;
    ApplyLatest(site, chain, known, log, p, w, held);
    if Readable(site, chain, known, w) {
      LastIsAhead(site, chain, log, p, w);
      hide IsLast;
      var next := held[Key(w) := HoldOf(site, chain, w)];
      forall k ensures Ahead(site, chain, log, p, k, Get(next, k)) {
        assert k != Key(w) ==> Get(next, k) == Get(held, k);
      }
    }
  }

  lemma LastIsAhead(site: Site, chain: seq<StatusKey>, log: seq<FeedWrite>, p: nat, w: FeedWrite)
    requires AllSigned(site, chain, log) && p <= |log| && IsLast(log, w)
    ensures Signed(site, chain, w) && Ahead(site, chain, log, p, Key(w), Some(HoldOf(site, chain, w)))
  {
    hide Key, HoldOf;
    assert Signed(site, chain, log[LastOf(log, Key(w)).value]);
  }

  lemma OneMoreResult(rs: seq<(string, Result<Apply, StatusError>)>, id: string, r: Result<Apply, StatusError>)
    ensures AllOk(rs + [(id, r)]) <==> AllOk(rs) && r.Ok?
    ensures RolledBack(rs + [(id, r)]) <==> RolledBack(rs) || (r.Err? && r.error.FeedRollback?)
  {
    var next := rs + [(id, r)];
    assert next[|rs|] == (id, r) && forall i :: 0 <= i < |rs| ==> next[i] == rs[i];
  }

  lemma OneMoreRead(site: Site, chain: seq<StatusKey>, known: Known, ws: seq<FeedWrite>, w: FeedWrite)
    ensures AllReadable(site, chain, known, ws + [w])
       <==> AllReadable(site, chain, known, ws) && Signed(site, chain, w) && Readable(site, chain, known, w)
  {
    hide Readable, Signed;
    var next := ws + [w];
    assert next[|ws|] == w && forall a :: 0 <= a < |ws| ==> next[a] == ws[a];
  }

  lemma {:induction false} ReplyTaken(site: Site, chain: seq<StatusKey>, known: Known, log: seq<FeedWrite>, p: nat, ws: seq<FeedWrite>, held: map<string, Held>)
    requires GoodLog(site, chain, log) && AllSigned(site, chain, log) && PartKnown(site, chain, known) && p <= |log|
    requires AllAhead(site, chain, log, p, held) && LastWrites(log, ws)
    ensures var (rs, results) := (Served(site, ItemsOf(ws)), ResultsOf(site.o, held, Served(site, ItemsOf(ws)), known.chain, known.pins));
      var next := HeldAfter(site.o, held, rs, known.chain, known.pins);
      && AllAhead(site, chain, log, p, next) && Taken(site, chain, known, ws, next)
      && (AllOk(results) <==> AllReadable(site, chain, known, ws)) && !RolledBack(results)
  {
    hide GoodLog, AllSigned, IsLast, Key, ApplyRecord, ServedRecord, AllAhead, Readable, PartKnown, HoldOf, Signed, Taken, AllReadable, AllOk, RolledBack;
    if ws == [] {
      NothingTaken(site, chain, known, held);
    } else {
      var (before, w) := (ws[..|ws| - 1], ws[|ws| - 1]);
      assert ws == before + [w];
      var rs := Served(site, ItemsOf(ws));
      assert rs[..|rs| - 1] == Served(site, ItemsOf(before));
      assert rs[|rs| - 1] == ServedRecord(site, FeedItem(w.feedSeq, w.id));
      ReplyTaken(site, chain, known, log, p, before, held);
      var middle := HeldAfter(site.o, held, rs[..|rs| - 1], known.chain, known.pins);
      TakeNext(site, chain, known, log, p, before, w, middle);
      OneMoreRead(site, chain, known, before, w);
      var results := ResultsOf(site.o, held, rs, known.chain, known.pins);
      OneMoreResult(ResultsOf(site.o, held, rs[..|rs| - 1], known.chain, known.pins), results[|ws| - 1].0, results[|ws| - 1].1);
      LastIsSigned(site, chain, log, w);
    }
  }

  lemma NothingTaken(site: Site, chain: seq<StatusKey>, known: Known, held: map<string, Held>)
    ensures Taken(site, chain, known, [], held) && AllReadable(site, chain, known, []) && AllOk([]) && !RolledBack([])
  {
  }

  lemma LastIsSigned(site: Site, chain: seq<StatusKey>, log: seq<FeedWrite>, w: FeedWrite)
    requires AllSigned(site, chain, log) && IsLast(log, w)
    ensures Signed(site, chain, w)
  {
    hide Signed;
  }

  // -------------------------------------------------------- the served view

  lemma {:induction false} MaxOfRising(log: seq<FeedWrite>)
    requires CursorsRise(log)
    ensures log == [] ==> MaxSeq(log) == 0
    ensures log != [] ==> MaxSeq(log) == log[|log| - 1].feedSeq
  {
    if log != [] { MaxOfRising(log[..|log| - 1]); }
  }

  /** On rising cursors, the server's latest write of a version is the last one. */
  lemma LatestIsLast(site: Site, chain: seq<StatusKey>, log: seq<FeedWrite>, i: nat)
    requires AllSigned(site, chain, log) && CursorsRise(log) && i < |log|
    ensures IsLatest(log, i) <==> LastOf(log, Key(log[i])) == Some(i)
  {
    hide Signed, VersionKey;
    forall j | 0 <= j < |log| ensures NameOf(log[j]) == NameOf(log[i]) <==> Key(log[j]) == Key(log[i]) {
      SameKeySameName(site, chain, log[i], log[j]);
    }
  }

  lemma SameKeySameName(site: Site, chain: seq<StatusKey>, a: FeedWrite, b: FeedWrite)
    requires Signed(site, chain, a) && Signed(site, chain, b)
    ensures NameOf(a) == NameOf(b) <==> Key(a) == Key(b)
  {
    hide Signed, VersionKey;
    HoldIsSigned(site, chain, a);
    HoldIsSigned(site, chain, b);
    if Key(a) == Key(b) { VersionKeyInjective(a.record.name, a.record.version, b.record.name, b.record.version); }
  }

  lemma SelectedAreLast(site: Site, chain: seq<StatusKey>, log: seq<FeedWrite>, after: nat, ws: seq<FeedWrite>)
    requires AllSigned(site, chain, log) && CursorsRise(log) && Selects(log, after, ws)
    ensures LastWrites(log, ws)
    ensures forall i :: 0 <= i < |log| && LastOf(log, Key(log[i])) == Some(i) && log[i].feedSeq > after ==> KeyAmong(ws, Key(log[i]))
  {
    hide Signed, Key, IsLatest, LastOf, NameOf;
    forall a | 0 <= a < |ws| ensures IsLast(log, ws[a]) && Signed(site, chain, ws[a]) {
      assert ws[a] in ws;
      var i :| 0 <= i < |log| && log[i] == ws[a] && IsLatest(log, i) && ws[a].feedSeq > after;
      LatestIsLast(site, chain, log, i);
    }
    forall a, b | 0 <= a < b < |ws| ensures Key(ws[a]) != Key(ws[b]) {
      SameKeySameName(site, chain, ws[a], ws[b]);
    }
    forall i | 0 <= i < |log| && LastOf(log, Key(log[i])) == Some(i) && log[i].feedSeq > after ensures KeyAmong(ws, Key(log[i])) {
      LatestIsLast(site, chain, log, i);
      assert log[i] in ws;
    }
  }

  /** The cursor names a prefix: `None` before anything was fetched, otherwise the prefix's last cursor. */
  ghost predicate CursorAt(log: seq<FeedWrite>, m: nat, cursor: Option<nat>)
    requires m <= |log|
  {
    (cursor.None? && m == 0) || cursor == Some(MaxSeq(log[..m]))
  }

  /** Whatever was refused before: once all that is served has been taken, nothing but the latest is held. */
  lemma CaughtUp(site: Site, chain: seq<StatusKey>, known: Known, log: seq<FeedWrite>, p: nat, after: nat, ws: seq<FeedWrite>, held: map<string, Held>)
    requires AllSigned(site, chain, log) && CursorsRise(log) && p <= |log| && (after == 0 || after == MaxSeq(log[..p]))
    requires AllAhead(site, chain, log, p, held) && Taken(site, chain, known, ws, held) && AllReadable(site, chain, known, ws)
    requires LastWrites(log, ws)
    requires forall i :: 0 <= i < |log| && LastOf(log, Key(log[i])) == Some(i) && log[i].feedSeq > after ==> KeyAmong(ws, Key(log[i]))
    ensures HoldsLatest(site, chain, log, held)
  {
    hide Signed, HoldOf, Key, LastOf, Readable;
    MaxOfRising(log[..p]);
    forall k ensures Get(held, k) == Due(site, chain, log, k) {
      var q := LastOf(log, k);
      assert Ahead(site, chain, log, p, k, Get(held, k));
      if q.Some? {
        if log[q.value].feedSeq > after {
          var a :| 0 <= a < |ws| && Key(ws[a]) == k;
          assert IsLast(log, ws[a]);
        } else {
          CursorPositive(site, chain, log, q.value);
          assert q.value < p;
        }
      }
    }
  }

  lemma CursorPositive(site: Site, chain: seq<StatusKey>, log: seq<FeedWrite>, i: nat)
    requires AllSigned(site, chain, log) && i < |log|
    ensures log[i].feedSeq >= 1
  {
    hide Authenticate;
    assert Signed(site, chain, log[i]);
  }

  /** Every latest write past the cursor can be read. */
  ghost predicate CanRead(site: Site, chain: seq<StatusKey>, known: Known, log: seq<FeedWrite>, after: nat)
    requires AllSigned(site, chain, log)
  {
    forall i :: 0 <= i < |log| && LastOf(log, Key(log[i])) == Some(i) && log[i].feedSeq > after ==> Readable(site, chain, known, log[i])
  }

  lemma ServedReadable(site: Site, chain: seq<StatusKey>, known: Known, log: seq<FeedWrite>, after: nat, ws: seq<FeedWrite>)
    requires AllSigned(site, chain, log) && CursorsRise(log) && Selects(log, after, ws)
    ensures AllReadable(site, chain, known, ws) <==> CanRead(site, chain, known, log, after)
  {
    hide Signed, HoldOf, Key, LastOf, Readable, IsLatest, NameOf;
    forall a | 0 <= a < |ws| ensures exists i :: 0 <= i < |log| && log[i] == ws[a] && LastOf(log, Key(log[i])) == Some(i) && log[i].feedSeq > after {
      assert ws[a] in ws;
      var i :| 0 <= i < |log| && log[i] == ws[a] && IsLatest(log, i) && ws[a].feedSeq > after;
      LatestIsLast(site, chain, log, i);
    }
    forall i | 0 <= i < |log| && LastOf(log, Key(log[i])) == Some(i) && log[i].feedSeq > after ensures log[i] in ws {
      LatestIsLast(site, chain, log, i);
    }
  }

  function After(mode: FeedMode, cursor: Option<nat>): nat { if mode == FeedMode.After && cursor.Some? then cursor.value else 0 }

  /**
   * One fetch, whether it asks for everything or only past the cursor, with
   * whatever part of the key chain and the pins the client has. What it holds
   * stays at or ahead of its cursor. The cursor moves exactly when everything
   * served can be read; then the client has exactly the latest status of every
   * version, whatever earlier replies it could not read.
   */
  lemma FetchCatchesUp(site: Site, chain: seq<StatusKey>, known: Known, log: seq<FeedWrite>, p: nat, state: FeedState, mode: FeedMode, view: FeedView)
    requires GoodLog(site, chain, log) && AllSigned(site, chain, log) && PartKnown(site, chain, known) && p <= |log|
    requires AllAhead(site, chain, log, p, state.held) && CursorAt(log, p, state.feedSeq)
    requires IsView(log, After(mode, state.feedSeq), view)
    ensures var out := FeedStep(site.o, state, mode, Records(view.feedSeq, Served(site, view.records)), known.chain, known.pins);
      && out.refusal.None? && out.step == Done && AllAhead(site, chain, log, p, out.next.held)
      && if CanRead(site, chain, known, log, After(mode, state.feedSeq))
         then out.next.feedSeq == Some(MaxSeq(log)) && HoldsLatest(site, chain, log, out.next.held)
         else out.next.feedSeq == state.feedSeq
  {
    hide GoodLog, AllSigned, AllAhead, PartKnown, CanRead, AllReadable, Taken, LastWrites, Selects, HoldsLatest, HeldAfter, ResultsOf, Served, ItemsOf, MaxSeq, CursorsRise, LastOf;
    var after := After(mode, state.feedSeq);
    var ws :| Selects(log, after, ws) && view.records == ItemsOf(ws);
    GoodIsSigned(site, chain, log);
    SelectedAreLast(site, chain, log, after, ws);
    ReplyTaken(site, chain, known, log, p, ws, state.held);
    ServedReadable(site, chain, known, log, after, ws);
    if CanRead(site, chain, known, log, after) {
      CaughtUp(site, chain, known, log, p, after, ws, HeldAfter(site.o, state.held, Served(site, view.records), known.chain, known.pins));
    }
    MaxOfPrefix(log, p);
  }

  lemma {:induction false} MaxOfPrefix(log: seq<FeedWrite>, m: nat)
    requires m <= |log|
    ensures MaxSeq(log[..m]) <= MaxSeq(log)
  {
    if m < |log| {
      MaxOfPrefix(log[..|log| - 1], m);
      assert log[..|log| - 1][..m] == log[..m];
    } else {
      assert log[..m] == log;
    }
  }

  // ------------------------------------------------------------ whole runs

  /** One answered request: the log was `m` writes long and the client knew this much. */
  datatype Fetch = Fetch(m: nat, mode: FeedMode, known: Known, view: FeedView)

  const FRESH := FeedState(None, map[])

  function Follow(site: Site, fetches: seq<Fetch>): FeedState {
    if fetches == [] then FRESH
    else
      var f := fetches[|fetches| - 1];
      FeedStep(site.o, Follow(site, fetches[..|fetches| - 1]), f.mode, Records(f.view.feedSeq, Served(site, f.view.records)),
               f.known.chain, f.known.pins).next
  }

  function Reached(fetches: seq<Fetch>): nat { if fetches == [] then 0 else fetches[|fetches| - 1].m }

  /** Each answer is the server's view of the log as long as it then was, past the client's own cursor. */
  ghost predicate Honest(site: Site, chain: seq<StatusKey>, log: seq<FeedWrite>, fetches: seq<Fetch>) {
    fetches == [] ||
    var (before, f) := (fetches[..|fetches| - 1], fetches[|fetches| - 1]);
    && Honest(site, chain, log, before)
    && Reached(before) <= f.m <= |log| && PartKnown(site, chain, f.known)
    && IsView(log[..f.m], After(f.mode, Follow(site, before).feedSeq), f.view)
  }

  /** Nothing the last answer served was beyond the client's keys and pins. */
  ghost predicate LastRead(site: Site, chain: seq<StatusKey>, log: seq<FeedWrite>, fetches: seq<Fetch>)
    requires fetches != [] && Reached(fetches) <= |log| && AllSigned(site, chain, log[..Reached(fetches)])
  {
    var (before, f) := (fetches[..|fetches| - 1], fetches[|fetches| - 1]);
    CanRead(site, chain, f.known, log[..f.m], After(f.mode, Follow(site, before).feedSeq))
  }

  /** How long the log was at the last answer that was read as a whole. */
  ghost function Synced(site: Site, chain: seq<StatusKey>, log: seq<FeedWrite>, fetches: seq<Fetch>): (p: nat)
    requires GoodLog(site, chain, log) && Honest(site, chain, log, fetches)
    ensures p <= Reached(fetches) <= |log|
  {
    if fetches == [] then 0
    else
      GoodIsSigned(site, chain, log);
      if LastRead(site, chain, log, fetches) then Reached(fetches) else Synced(site, chain, log, fetches[..|fetches| - 1])
  }

  /** A prefix of a good log is a good log. */
  lemma GoodPrefix(site: Site, chain: seq<StatusKey>, log: seq<FeedWrite>, m: nat)
    requires GoodLog(site, chain, log) && m <= |log|
    ensures GoodLog(site, chain, log[..m])
  {
    hide Signed, HoldOf, Compare, Key;
    var part := log[..m];
    assert forall i :: 0 <= i < m ==> part[i] == log[i];
    forall i: nat, j: nat | Precedes(part, i, j)
      ensures Compare(Some(HoldOf(site, chain, part[i])), HoldOf(site, chain, part[j])) == Ok(Applied)
    {
      assert Precedes(log, i, j);
    }
  }

  /** What was ahead stays ahead while the log grows. */
  lemma AheadGrows(site: Site, chain: seq<StatusKey>, log: seq<FeedWrite>, m: nat, n: nat, p: nat, held: map<string, Held>)
    requires AllSigned(site, chain, log) && p <= m <= n <= |log| && AllSigned(site, chain, log[..m]) && AllSigned(site, chain, log[..n])
    requires AllAhead(site, chain, log[..m], p, held)
    ensures AllAhead(site, chain, log[..n], p, held)
  {
    hide Key, HoldOf, AllSigned;
    assert forall i :: 0 <= i < m ==> log[..m][i] == log[..n][i];
    forall k ensures Ahead(site, chain, log[..n], p, k, Get(held, k)) {
      assert Ahead(site, chain, log[..m], p, k, Get(held, k));
    }
  }

  lemma LatestIsAhead(site: Site, chain: seq<StatusKey>, log: seq<FeedWrite>, held: map<string, Held>)
    requires AllSigned(site, chain, log) && HoldsLatest(site, chain, log, held)
    ensures AllAhead(site, chain, log, |log|, held)
  {
    hide Key, HoldOf, AllSigned, LastOf;
    forall k ensures Ahead(site, chain, log, |log|, k, Get(held, k)) {
      assert Get(held, k) == Due(site, chain, log, k);
    }
  }

  /**
   * Over any honest run, with keys and pins that arrive late: the cursor is
   * that of the last answer the client could read as a whole, and for every
   * version it holds the latest write up to there or a later one. No version
   * is ever skipped, because a refused record holds the cursor back.
   */
  lemma {:induction false} FollowerNeverSkips(site: Site, chain: seq<StatusKey>, log: seq<FeedWrite>, fetches: seq<Fetch>)
    requires GoodLog(site, chain, log) && Honest(site, chain, log, fetches)
    ensures var (m, p) := (Reached(fetches), Synced(site, chain, log, fetches));
      && AllSigned(site, chain, log[..m])
      && AllAhead(site, chain, log[..m], p, Follow(site, fetches).held)
      && CursorAt(log, p, Follow(site, fetches).feedSeq)
      && (fetches != [] && LastRead(site, chain, log, fetches) ==>
            HoldsLatest(site, chain, log[..m], Follow(site, fetches).held) && Follow(site, fetches).feedSeq == Some(MaxSeq(log[..m])))
  {
    hide GoodLog, FeedStep, IsView, Served, MaxSeq, AllSigned, AllAhead, HoldsLatest, CanRead, PartKnown;
    GoodIsSigned(site, chain, log);
    if fetches == [] {
      NothingAhead(site, chain, log);
    } else {
      var (before, f) := (fetches[..|fetches| - 1], fetches[|fetches| - 1]);
      var (s, p, part) := (Follow(site, before), Synced(site, chain, log, before), log[..f.m]);
      FollowerNeverSkips(site, chain, log, before);
      AheadGrows(site, chain, log, Reached(before), f.m, p, s.held);
      GoodPrefix(site, chain, log, f.m);
      assert part[..p] == log[..p];
      FetchCatchesUp(site, chain, f.known, part, p, s, f.mode, f.view);
      if LastRead(site, chain, log, fetches) {
        LatestIsAhead(site, chain, part, Follow(site, fetches).held);
        assert part[..|part|] == part;
      }
    }
  }

  lemma NothingAhead(site: Site, chain: seq<StatusKey>, log: seq<FeedWrite>)
    requires AllSigned(site, chain, log[..0])
    ensures AllAhead(site, chain, log[..0], 0, map[])
  {
    hide Key;
  }

  /**
   * After any honest run of full and incremental fetches, while the log, the
   * key chain and the pins keep growing and whatever could not be read on the
   * way: once the last answer can be read, the client holds exactly the latest
   * status of every version and the log's cursor.
   */
  lemma FollowerIsCurrent(site: Site, chain: seq<StatusKey>, log: seq<FeedWrite>, fetches: seq<Fetch>)
    requires GoodLog(site, chain, log) && Honest(site, chain, log, fetches) && fetches != []
    requires Reached(fetches) <= |log| && AllSigned(site, chain, log[..Reached(fetches)]) && LastRead(site, chain, log, fetches)
    ensures HoldsLatest(site, chain, log[..Reached(fetches)], Follow(site, fetches).held)
    ensures Follow(site, fetches).feedSeq == Some(MaxSeq(log[..Reached(fetches)]))
  {
    hide GoodLog, Follow, MaxSeq, AllSigned, HoldsLatest, LastRead, Honest;
    FollowerNeverSkips(site, chain, log, fetches);
  }

  /**
   * Cursor sync equals full sync: any two honest runs that have reached and
   * read the same point of the log agree completely, be one a single full
   * fetch and the other any mixture of cursors and of answers refused in part.
   */
  lemma FollowersAgree(site: Site, chain: seq<StatusKey>, log: seq<FeedWrite>, a: seq<Fetch>, b: seq<Fetch>)
    requires GoodLog(site, chain, log) && Honest(site, chain, log, a) && Honest(site, chain, log, b)
    requires a != [] && b != [] && Reached(a) == Reached(b) <= |log| && AllSigned(site, chain, log[..Reached(a)])
    requires LastRead(site, chain, log, a) && LastRead(site, chain, log, b)
    ensures Follow(site, a) == Follow(site, b)
  {
    hide GoodLog, Honest, Follow, HoldsLatest, AllSigned, LastRead, MaxSeq;
    FollowerIsCurrent(site, chain, log, a);
    FollowerIsCurrent(site, chain, log, b);
    SameHolds(site, chain, log[..Reached(a)], Follow(site, a).held, Follow(site, b).held);
  }
}
