/** The `/reports` endpoints: create, list, get and delete over the table,
    with create also putting a job on the queue. HTTP plumbing is gone; a
    missing report is the `NotFound` error. */
module Api {
  import opened Wrappers
  import opened Reports
  import opened SortedKeys
  import opened Worker

  /** The table together with the messages waiting on the job queue. */
  datatype Backend = Backend(store: Store, queue: seq<Job>)

  /** The one error the endpoints report (HTTP 404). */
  datatype ApiError = NotFound

  datatype Result<+T> = Ok(value: T) | Err(error: ApiError)

  datatype Created = Created(backend: Backend, report: Report)

  datatype Deleted = Deleted(backend: Backend, reply: Result<()>)

  /** The key an insert receives: one above the largest key in the table, or
      1 in an empty table (SQLite's rule for an integer primary key). */
  function NextId(s: Store): (id: int)
    ensures forall k :: k in s ==> k < id
    ensures s == map[] ==> id == 1
  {
    if s == map[] then 1 else Max(s.Keys) + 1
  }

  /** POST /reports: insert a row with the column defaults under a fresh key,
      then enqueue its first job; the stored row is the response. */
  function Create(b: Backend, title: string, now: Time): (r: Created)
    // the key is new and larger than every existing one
    ensures r.report.id !in b.store
    ensures forall k :: k in b.store ==> k < r.report.id
    // exactly one row is added, and it is the one returned
    ensures r.backend.store == b.store[r.report.id := r.report]
    // the row carries the title as given and the defaults
    ensures r.report.title == title && r.report.createdAt == now
    ensures r.report.status == Pending && r.report.retryCount == 0
    ensures r.report.resultUrl == None && r.report.completedAt == None
    // exactly one job, for the new id and not yet retried, joins the queue
    ensures r.backend.queue == b.queue + [Job(r.report.id, 0)]
  {
    var id := NextId(b.store);
    var report := NewReport(id, title, now);
    Created(Backend(b.store[id := report], b.queue + [Job(id, 0)]), report)
  }

  /** The rows stored under the keys `ks`, in that order. */
  function Rows(s: Store, ks: seq<int>): (rs: seq<Report>)
    requires forall i :: 0 <= i < |ks| ==> ks[i] in s
    ensures |rs| == |ks|
    ensures forall i :: 0 <= i < |ks| ==> rs[i] == s[ks[i]]
    decreases |ks|
  {
    if ks == [] then [] else [s[ks[0]]] + Rows(s, ks[1..])
  }

  /** GET /reports: every row once, newest (largest id) first. */
  function List(s: Store): (rs: seq<Report>)
    requires WellFormed(s)
    ensures |rs| == |s|
    ensures forall i :: 0 <= i < |rs| ==> rs[i].id in s && s[rs[i].id] == rs[i]
    ensures forall i, j :: 0 <= i < j < |rs| ==> rs[i].id > rs[j].id
  {
    var ks := KeysDesc(s.Keys);
    RowsByKey(s, ks);
    Rows(s, ks)
  }

  /** Listing the rows under keys of the table puts each row at the position
      of its own key, so a descending key sequence gives a newest-first listing. */
  lemma RowsByKey(s: Store, ks: seq<int>)
    requires WellFormed(s)
    requires forall i :: 0 <= i < |ks| ==> ks[i] in s
    ensures var rs := Rows(s, ks);
      && (forall i :: 0 <= i < |rs| ==> rs[i].id == ks[i] && rs[i].id in s && s[rs[i].id] == rs[i])
      && (Descending(ks) ==> forall i, j :: 0 <= i < j < |rs| ==> rs[i].id > rs[j].id)
  {
  }

  /** The listing is the rows under the descending enumeration of the keys. */
  lemma ListIsRows(s: Store)
    requires WellFormed(s)
    ensures forall i :: 0 <= i < |KeysDesc(s.Keys)| ==> KeysDesc(s.Keys)[i] in s
    ensures List(s) == Rows(s, KeysDesc(s.Keys))
  {
  }

  /** The listing leaves no row out. */
  lemma ListComplete(s: Store, id: int)
    requires WellFormed(s) && id in s
    ensures s[id] in List(s)
  {
    var ks := KeysDesc(s.Keys);
    assert id in ks;
    var i :| 0 <= i < |ks| && ks[i] == id;
    assert List(s)[i] == s[id];
  }

  /** GET /reports/{id}. */
  function Get(s: Store, id: int): (r: Result<Report>)
    ensures r.Ok? <==> id in s
    ensures r.Ok? ==> r.value == s[id]
  {
    if id in s then Ok(s[id]) else Err(NotFound)
  }

  /** DELETE /reports/{id}: removes the row whatever its status; queued jobs
      for it stay on the queue. */
  function Delete(b: Backend, id: int): (r: Deleted)
    ensures id !in b.store ==> r == Deleted(b, Err(NotFound))
    ensures id in b.store ==> r.reply == Ok(())
    ensures r.backend.store.Keys == b.store.Keys - {id}
    ensures forall k :: k in r.backend.store ==> r.backend.store[k] == b.store[k]
    ensures r.backend.queue == b.queue
  {
    if id in b.store then Deleted(Backend(b.store - {id}, b.queue), Ok(())) else Deleted(b, Err(NotFound))
  }

  /** A created report can be fetched back unchanged. */
  lemma GetAfterCreate(b: Backend, title: string, now: Time)
    ensures var c := Create(b, title, now); Get(c.backend.store, c.report.id) == Ok(c.report)
  {
  }

  /** The rows of a table enlarged by a row with a new top key: that row,
      then the rows of the table as it was. */
  lemma RowsAfterInsert(s: Store, r: Report)
    requires forall k :: k in s ==> k < r.id
    ensures Rows(s[r.id := r], KeysDesc(s[r.id := r].Keys)) == [r] + Rows(s, KeysDesc(s.Keys))
  {
    KeysAfterInsert(s, r);
    RowsPrepend(s, r, KeysDesc(s.Keys));
  }

  /** The new top key heads the enumeration of the enlarged table. */
  lemma KeysAfterInsert(s: Store, r: Report)
    requires forall k :: k in s ==> k < r.id
    ensures KeysDesc(s[r.id := r].Keys) == [r.id] + KeysDesc(s.Keys)
  {
    assert s[r.id := r].Keys == s.Keys + {r.id};
    KeysDescInsertTop(s.Keys, r.id);
  }

  /** Deleting a key takes it out of the enumeration and keeps the rest in order. */
  lemma KeysAfterDelete(s: Store, id: int)
    ensures KeysDesc((s - {id}).Keys) == WithoutKey(KeysDesc(s.Keys), id)
  {
    assert (s - {id}).Keys == s.Keys - {id};
    KeysDescWithout(s.Keys, id);
  }

  /** Listing a new row first and then old keys. */
  lemma RowsPrepend(s: Store, r: Report, ks: seq<int>)
    requires forall k :: k in s ==> k < r.id
    requires forall i :: 0 <= i < |ks| ==> ks[i] in s
    ensures Rows(s[r.id := r], [r.id] + ks) == [r] + Rows(s, ks)
  {
    RowsAgree(s, s[r.id := r], ks);
    assert ([r.id] + ks)[1..] == ks;
  }

  /** Listing the same keys in two tables that agree on them gives the same rows. */
  lemma RowsAgree(s: Store, t: Store, ks: seq<int>)
    requires forall i :: 0 <= i < |ks| ==> ks[i] in s && ks[i] in t && s[ks[i]] == t[ks[i]]
    ensures Rows(s, ks) == Rows(t, ks)
  {
  }

  /** A deleted report is gone. */
  lemma GetAfterDelete(b: Backend, id: int)
    ensures Get(Delete(b, id).backend.store, id) == Err(NotFound)
  {
  }
}
