/** Serving the feed from the registry's log, and why a cursor loses nothing. */
module FeedSync {
  import opened Prelude
  import opened Status

  datatype FeedWrite = FeedWrite(feedSeq: nat, id: string, record: StatusRecord)

  datatype FeedItem = FeedItem(feedSeq: nat, id: string)

  datatype FeedView = FeedView(feedSeq: nat, records: seq<FeedItem>)

  // ------------------------------------------------------------ the server

  function MaxSeq(log: seq<FeedWrite>): nat {
    if log == [] then 0
    else
      var rest := MaxSeq(log[..|log| - 1]);
      if log[|log| - 1].feedSeq > rest then log[|log| - 1].feedSeq else rest
  }

  /** The greatest cursor of the log. */
  lemma {:induction false} MaxSeqMeans(log: seq<FeedWrite>)
    ensures forall i :: 0 <= i < |log| ==> log[i].feedSeq <= MaxSeq(log)
    ensures log == [] ==> MaxSeq(log) == 0
    ensures log != [] ==> exists i :: 0 <= i < |log| && log[i].feedSeq == MaxSeq(log)
  {
    if log != [] {
      var front := log[..|log| - 1];
      MaxSeqMeans(front);
      assert forall i :: 0 <= i < |front| ==> log[i] == front[i];
      if front != [] && MaxSeq(log) == MaxSeq(front) {
        var i :| 0 <= i < |front| && front[i].feedSeq == MaxSeq(front);
        assert log[i].feedSeq == MaxSeq(log);
      }
    }
  }

  function NameOf(w: FeedWrite): (string, string) { (w.record.name, w.record.version) }

  /** `w` is the first write of its version with the greatest cursor. */
  ghost predicate IsLatest(log: seq<FeedWrite>, i: nat)
    requires i < |log|
  {
    forall j :: 0 <= j < |log| && NameOf(log[j]) == NameOf(log[i]) ==>
      log[j].feedSeq < log[i].feedSeq || (log[j].feedSeq == log[i].feedSeq && i <= j)
  }

  /** The items are the latest writes past the cursor, one per version, by rising cursor. */
  ghost predicate Selects(log: seq<FeedWrite>, after: nat, ws: seq<FeedWrite>) {
    && (forall w :: w in ws <==> exists i :: 0 <= i < |log| && log[i] == w && IsLatest(log, i) && w.feedSeq > after)
    && (forall a, b :: 0 <= a < b < |ws| ==> ws[a].feedSeq <= ws[b].feedSeq && NameOf(ws[a]) != NameOf(ws[b]))
  }

  function ItemsOf(ws: seq<FeedWrite>): (items: seq<FeedItem>)
    ensures |items| == |ws| && forall i :: 0 <= i < |ws| ==> items[i] == FeedItem(ws[i].feedSeq, ws[i].id)
  {
    seq(|ws|, i requires 0 <= i < |ws| => FeedItem(ws[i].feedSeq, ws[i].id))
  }

  ghost predicate IsView(log: seq<FeedWrite>, after: nat, view: FeedView) {
    && view.feedSeq == MaxSeq(log)
    && exists ws: seq<FeedWrite> :: Selects(log, after, ws) && view.records == ItemsOf(ws)
  }

  /** `w` is the latest write of version `k`. */
  ghost predicate LatestOf(log: seq<FeedWrite>, k: (string, string), w: FeedWrite) {
    exists i :: 0 <= i < |log| && IsLatest(log, i) && log[i] == w && NameOf(w) == k
  }

  /** The versions seen so far, each with its latest write. */
  ghost predicate LatestMap(log: seq<FeedWrite>, latest: map<(string, string), FeedWrite>) {
    && (forall k :: k in latest ==> LatestOf(log, k, latest[k]))
    && (forall i :: 0 <= i < |log| ==> NameOf(log[i]) in latest)
  }

  lemma LatestNext(log: seq<FeedWrite>, i: nat, latest: map<(string, string), FeedWrite>)
    requires i < |log| && LatestMap(log[..i], latest)
    ensures var w := log[i];
      LatestMap(log[..i + 1],
                if NameOf(w) !in latest || latest[NameOf(w)].feedSeq < w.feedSeq then latest[NameOf(w) := w] else latest)
  {
    hide LatestMap;
    var w := log[i];
    var replaced := NameOf(w) !in latest || latest[NameOf(w)].feedSeq < w.feedSeq;
    var next := if replaced then latest[NameOf(w) := w] else latest;
    LatestMapMeans(log[..i], latest);
    forall k | k in next ensures LatestOf(log[..i + 1], k, next[k]) {
      if replaced && k == NameOf(w) {
        LastIsLatest(log, i, latest);
      } else {
        var j :| 0 <= j < i && NameOf(log[..i][j]) == k && log[..i][j] == latest[k] && IsLatest(log[..i], j);
        StaysLatest(log, i, j);
      }
    }
    LatestMapFrom(log[..i + 1], next);
  }

  lemma LatestMapMeans(log: seq<FeedWrite>, latest: map<(string, string), FeedWrite>)
    requires LatestMap(log, latest)
    ensures forall k :: k in latest ==> LatestOf(log, k, latest[k])
    ensures forall i :: 0 <= i < |log| ==> NameOf(log[i]) in latest
  {
  }

  lemma LatestMapFrom(log: seq<FeedWrite>, latest: map<(string, string), FeedWrite>)
    requires forall k :: k in latest ==> LatestOf(log, k, latest[k])
    requires forall i :: 0 <= i < |log| ==> NameOf(log[i]) in latest
    ensures LatestMap(log, latest)
  {
  }

  /** A write past every earlier one of its version is the latest. */
  lemma LastIsLatest(log: seq<FeedWrite>, i: nat, latest: map<(string, string), FeedWrite>)
    requires i < |log| && LatestMap(log[..i], latest)
    requires NameOf(log[i]) !in latest || latest[NameOf(log[i])].feedSeq < log[i].feedSeq
    ensures IsLatest(log[..i + 1], i)
  {
    var (n, before) := (NameOf(log[i]), log[..i]);
    forall j | 0 <= j < i && NameOf(log[j]) == n ensures log[j].feedSeq < log[i].feedSeq {
      assert NameOf(before[j]) in latest;
      var l :| 0 <= l < i && NameOf(before[l]) == n && before[l] == latest[n] && IsLatest(before, l);
      assert before[j].feedSeq <= before[l].feedSeq;
    }
  }

  lemma StaysLatest(log: seq<FeedWrite>, i: nat, j: nat)
    requires j < i < |log| && IsLatest(log[..i], j)
    requires NameOf(log[i]) == NameOf(log[j]) ==> log[i].feedSeq <= log[j].feedSeq
    ensures IsLatest(log[..i + 1], j)
  {
    var (before, upto) := (log[..i], log[..i + 1]);
    forall l | 0 <= l < |upto| && NameOf(upto[l]) == NameOf(upto[j])
      ensures upto[l].feedSeq < upto[j].feedSeq || (upto[l].feedSeq == upto[j].feedSeq && j <= l)
    {
      if l < i { assert before[l] == upto[l]; }
    }
  }

  /** Sorted insertion, after equals. */
  function Insert(ws: seq<FeedWrite>, w: FeedWrite): (out: seq<FeedWrite>)
    ensures forall x :: x in out <==> x in ws || x == w
    ensures |out| == |ws| + 1
  {
    if ws == [] then [w]
    else if w.feedSeq < ws[|ws| - 1].feedSeq then
      assert ws == ws[..|ws| - 1] + [ws[|ws| - 1]];
      Insert(ws[..|ws| - 1], w) + [ws[|ws| - 1]]
    else ws + [w]
  }

  ghost predicate Rising(ws: seq<FeedWrite>) {
    forall a, b :: 0 <= a < b < |ws| ==> ws[a].feedSeq <= ws[b].feedSeq && NameOf(ws[a]) != NameOf(ws[b])
  }

  lemma {:induction false} InsertRising(ws: seq<FeedWrite>, w: FeedWrite)
    requires Rising(ws) && forall x :: x in ws ==> NameOf(x) != NameOf(w)
    ensures Rising(Insert(ws, w))
  {
    if ws != [] && w.feedSeq < ws[|ws| - 1].feedSeq {
      var (last, rest) := (ws[|ws| - 1], Insert(ws[..|ws| - 1], w));
      InsertRising(ws[..|ws| - 1], w);
      forall a | 0 <= a < |rest| ensures rest[a].feedSeq <= last.feedSeq && NameOf(rest[a]) != NameOf(last) {
        assert rest[a] in rest;
        if rest[a] in ws[..|ws| - 1] {
          var b :| 0 <= b < |ws| - 1 && ws[b] == rest[a];
          assert ws[b].feedSeq <= ws[|ws| - 1].feedSeq;
        }
      }
    }
  }

  /** What has been collected from the latest writes of all versions but `todo`. */
  ghost predicate Collected(latest: map<(string, string), FeedWrite>, todo: set<(string, string)>, after: nat, ws: seq<FeedWrite>) {
    && Rising(ws)
    && forall w :: w in ws <==> NameOf(w) in latest && NameOf(w) !in todo && latest[NameOf(w)] == w && w.feedSeq > after
  }

  lemma CollectNext(latest: map<(string, string), FeedWrite>, todo: set<(string, string)>, after: nat, ws: seq<FeedWrite>, k: (string, string))
    requires Collected(latest, todo, after, ws) && k in todo && k in latest && NameOf(latest[k]) == k
    ensures Collected(latest, todo - {k}, after, if latest[k].feedSeq > after then Insert(ws, latest[k]) else ws)
  {
    hide Rising, Insert;
    if latest[k].feedSeq > after { InsertRising(ws, latest[k]); }
  }

  lemma CollectedSelects(log: seq<FeedWrite>, latest: map<(string, string), FeedWrite>, after: nat, ws: seq<FeedWrite>)
    requires LatestMap(log, latest) && Collected(latest, {}, after, ws)
    ensures Selects(log, after, ws)
  {
    forall i | 0 <= i < |log| && IsLatest(log, i) ensures latest[NameOf(log[i])] == log[i] {
      var k := NameOf(log[i]);
      var j :| 0 <= j < |log| && NameOf(log[j]) == k && log[j] == latest[k] && IsLatest(log, j);
    }
    forall w | w in ws ensures exists i :: 0 <= i < |log| && log[i] == w && IsLatest(log, i) && w.feedSeq > after {
      var i :| 0 <= i < |log| && NameOf(log[i]) == NameOf(w) && log[i] == latest[NameOf(w)] && IsLatest(log, i);
    }
  }

  /**
   * Serve the feed past a cursor: refused outside what the log can serve,
   * otherwise the latest write of every version changed since.
   */
  method SelectFeed(log: seq<FeedWrite>, oldest: nat, after: Option<nat>) returns (r: Result<FeedView, StatusError>)
    ensures r.Ok? <==> (after.Some? ==> oldest <= after.value <= MaxSeq(log))
    ensures r.Err? ==> r.error == FeedAfterUnavailable
    ensures r.Ok? ==> IsView(log, if after.Some? then after.value else 0, r.value)
  {
    hide NameOf, Insert, LatestMap, Collected, Selects, IsLatest;
    var current := MaxSeq(log);
    if after.Some? && (after.value > current || after.value < oldest) {
      return Err(FeedAfterUnavailable);
    }
    var latest: map<(string, string), FeedWrite> := map[];
    LatestMapFrom(log[..0], latest);
    for i := 0 to |log|
      invariant LatestMap(log[..i], latest)
    {
      var w := log[i];
      LatestNext(log, i, latest);
      if NameOf(w) !in latest || latest[NameOf(w)].feedSeq < w.feedSeq {
        latest := latest[NameOf(w) := w];
      }
    }
    assert log[..|log|] == log;
    LatestMapMeans(log, latest);
    var since := if after.Some? then after.value else 0;
    var (todo, ws) := (latest.Keys, []);
    NothingCollected(latest, since);
    while todo != {}
      invariant todo <= latest.Keys && Collected(latest, todo, since, ws)
      decreases |todo|
    {
      var k :| k in todo;
      CollectNext(latest, todo, since, ws, k);
      if latest[k].feedSeq > since { ws := Insert(ws, latest[k]); }
      todo := todo - {k};
    }
    CollectedSelects(log, latest, since, ws);
    SelectedView(log, since, ws);
    return Ok(FeedView(current, ItemsOf(ws)));
  }

  lemma SelectedView(log: seq<FeedWrite>, after: nat, ws: seq<FeedWrite>)
    requires Selects(log, after, ws)
    ensures IsView(log, after, FeedView(MaxSeq(log), ItemsOf(ws)))
  {
  }

  lemma NothingCollected(latest: map<(string, string), FeedWrite>, after: nat)
    ensures Collected(latest, latest.Keys, after, [])
  {
  }
}
