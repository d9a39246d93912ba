/** The browser dashboard: how a report's status is shown, and the cached
    report list's optimistic removal on delete with its rollback. The page
    sees reports as the JSON the API serves, so statuses are plain strings. */
module Dashboard {
  import opened Wrappers
  import opened Reports
  import opened SortedKeys
  import opened Api

  /** A report as the API serialises it. */
  datatype ReportJson = ReportJson(
    id: int,
    title: string,
    status: string,
    resultUrl: Option<string>,
    retryCount: int,
    createdAt: Time,
    completedAt: Option<Time>)

  function ToJson(r: Report): ReportJson
  {
    ReportJson(r.id, r.title, StatusName(r.status), r.resultUrl, r.retryCount, r.createdAt, r.completedAt)
  }

  /** A response body of reports. */
  function Serialize(rs: seq<Report>): (js: seq<ReportJson>)
    ensures |js| == |rs| && forall i :: 0 <= i < |rs| ==> js[i] == ToJson(rs[i])
    decreases |rs|
  {
    if rs == [] then [] else [ToJson(rs[0])] + Serialize(rs[1..])
  }

  /** The status shown: a report still processing after a failure is shown
      as retrying; any other report shows its stored status. */
  function DisplayStatus(r: ReportJson): (shown: string)
    ensures shown == r.status || shown == "retrying"
    ensures shown != r.status <==> r.status == "processing" && r.retryCount > 0
  {
    if r.status == "processing" && r.retryCount > 0 then "retrying" else r.status
  }

  /** The statuses the dashboard knows how to paint. */
  const KnownStatuses: seq<string> := ["pending", "processing", "retrying", "completed", "failed"]

  /** The colour for anything else. */
  const DefaultColor: string := "#6b7280"

  /** The icon for anything else. */
  const DefaultIcon: string := "\U{2022}"

  function StatusColor(status: string): (color: string)
    ensures status !in KnownStatuses <==> color == DefaultColor
  {
    match status
    case "pending" => "#f59e0b"
    case "processing" => "#3b82f6"
    case "retrying" => "#f97316"
    case "completed" => "#10b981"
    case "failed" => "#ef4444"
    case _ => DefaultColor
  }

  function StatusIcon(status: string): (icon: string)
    ensures status !in KnownStatuses <==> icon == DefaultIcon
  {
    match status
    case "pending" => "\U{23F3}"
    case "processing" => "\U{2699}\U{FE0F}"
    case "retrying" => "\U{1F501}"
    case "completed" => "\U{2705}"
    case "failed" => "\U{274C}"
    case _ => DefaultIcon
  }

  /** No two known statuses share a colour. */
  lemma ColorsDistinct(a: string, b: string)
    requires a in KnownStatuses && b in KnownStatuses && a != b
    ensures StatusColor(a) != StatusColor(b)
  {
  }

  /** No two known statuses share an icon. */
  lemma IconsDistinct(a: string, b: string)
    requires a in KnownStatuses && b in KnownStatuses && a != b
    ensures StatusIcon(a) != StatusIcon(b)
  {
  }

  /** Every report the backend stores is shown with a known status, hence
      with its own colour and icon; it reads retrying exactly when it is
      processing after at least one failure. */
  lemma StoredReportDisplay(r: Report)
    ensures DisplayStatus(ToJson(r)) in KnownStatuses
    ensures DisplayStatus(ToJson(r)) == "retrying" <==> r.status == Processing && r.retryCount > 0
    ensures StatusColor(DisplayStatus(ToJson(r))) != DefaultColor
    ensures StatusIcon(DisplayStatus(ToJson(r))) != DefaultIcon
  {
  }

  /** The cached list without the rows carrying `id`, in their order. */
  function WithoutId(rows: seq<ReportJson>, id: int): (r: seq<ReportJson>)
    ensures forall x :: x in r <==> x in rows && x.id != id
    ensures |r| <= |rows|
    decreases |rows|
  {
    if rows == [] then []
    else (if rows[0].id == id then [] else [rows[0]]) + WithoutId(rows[1..], id)
  }

  /** Filtering distributes over concatenation, so the kept rows keep
      their relative order. */
  lemma {:induction false} WithoutIdAppend(a: seq<ReportJson>, b: seq<ReportJson>, id: int)
    ensures WithoutId(a + b, id) == WithoutId(a, id) + WithoutId(b, id)
    decreases |a|
  {
    if a != [] {
      assert (a + b)[0] == a[0];
      assert (a + b)[1..] == a[1..] + b;
      WithoutIdAppend(a[1..], b, id);
    } else {
      assert a + b == b;
    }
  }

  /** The cache after the optimistic update: the filtered list, or an
      empty list when nothing was cached. */
  function OptimisticRemove(cache: Option<seq<ReportJson>>, id: int): (rows: seq<ReportJson>)
    ensures cache == None ==> rows == []
    ensures cache.Some? ==> |rows| <= |cache.value|
    ensures forall x :: x in rows <==> cache.Some? && x in cache.value && x.id != id
  {
    match cache
    case None => []
    case Some(cached) => WithoutId(cached, id)
  }

  /** The cache after a failed delete: the snapshot taken before the
      optimistic update when there was one (an empty list counts), else the
      cache as it stands. */
  function Rollback(current: Option<seq<ReportJson>>, snapshot: Option<seq<ReportJson>>): (cache: Option<seq<ReportJson>>)
    // any snapshot, the empty list included, wins over what the cache holds now
    ensures snapshot.Some? ==> cache == snapshot
    // with no snapshot the cache is left as it is
    ensures snapshot.None? ==> cache == current
  {
    if snapshot.Some? then snapshot else current
  }

  /** A failed delete undoes the optimistic update: with a snapshot the
      cache is exactly the snapshot again, without one it stays empty. */
  lemma RollbackRestores(snapshot: Option<seq<ReportJson>>, id: int)
    ensures var after := Rollback(Some(OptimisticRemove(snapshot, id)), snapshot);
      && (snapshot.Some? ==> after == snapshot)
      && (snapshot.None? ==> after == Some([]))
  {
  }

  /** The JSON rows for the table's rows under `ks`, after removing `id`,
      are the rows of the table without `id`. */
  lemma {:induction false} WithoutIdRows(s: Store, ks: seq<int>, id: int)
    requires WellFormed(s)
    requires forall i :: 0 <= i < |ks| ==> ks[i] in s
    ensures forall i :: 0 <= i < |WithoutKey(ks, id)| ==> WithoutKey(ks, id)[i] in s - {id}
    ensures WithoutId(Serialize(Rows(s, ks)), id) == Serialize(Rows(s - {id}, WithoutKey(ks, id)))
    decreases |ks|
  {
    var w := WithoutKey(ks, id);
    forall i | 0 <= i < |w|
      ensures w[i] in s - {id}
    {
      var k := w[i];
      assert k in w;
    }
    if ks != [] {
      var k := ks[0];
      WithoutIdRows(s, ks[1..], id);
      var head := Serialize(Rows(s, ks));
      assert Rows(s, ks) == [s[k]] + Rows(s, ks[1..]);
      assert head == [ToJson(s[k])] + Serialize(Rows(s, ks[1..]));
      assert head[0].id == k;
      assert head[1..] == Serialize(Rows(s, ks[1..]));
      if k != id {
        assert w == [k] + WithoutKey(ks[1..], id);
        assert Rows(s - {id}, w) == [s[k]] + Rows(s - {id}, w[1..]);
        assert w[1..] == WithoutKey(ks[1..], id);
      }
    }
  }

  /** The optimistic update predicts the server: removing a report from a
      cached listing gives the listing the server serves after the delete. */
  lemma OptimisticMatchesServer(b: Backend, id: int)
    requires WellFormed(b.store)
    ensures var after := Delete(b, id).backend.store;
      && WellFormed(after)
      && OptimisticRemove(Some(Serialize(List(b.store))), id) == Serialize(List(after))
  {
    var after := Delete(b, id).backend.store;
    assert after == b.store - {id};
    ListWithout(b.store, id);
  }

  /** Filtering a listing by id is listing the table without that id. */
  lemma ListWithout(s: Store, id: int)
    requires WellFormed(s)
    ensures WellFormed(s - {id})
    ensures WithoutId(Serialize(List(s)), id) == Serialize(List(s - {id}))
  {
    var after := s - {id};
    var ks := KeysDesc(s.Keys);
    calc {
      WithoutId(Serialize(List(s)), id);
      { ListIsRows(s); }
      WithoutId(Serialize(Rows(s, ks)), id);
      { WithoutIdRows(s, ks, id); }
      Serialize(Rows(after, WithoutKey(ks, id)));
      { KeysAfterDelete(s, id); }
      Serialize(Rows(after, KeysDesc(after.Keys)));
      { ListIsRows(after); }
      Serialize(List(after));
    }
  }
}
