/**
 * What an import of ops/import-legacy-transfers.ts leaves in each row, and
 * exactly when a first import goes through, on the fields of the bundle alone.
 */
module LegacyRows {
  import opened Basics
  import opened LegacyImport

  // ---- What the lookups find ----

  /** The bundle has this file for the job: the first of that id in the transfer of that id. */
  ghost predicate HasFile(source: Source, job: Job, f: SourceFile) {
    exists t <- source.transfers :: t.id == job.transferId && IsFirst(t.files, job.mediaId, f)
  }

  ghost predicate IsFirst(files: seq<SourceFile>, id: string, f: SourceFile) {
    exists i :: 0 <= i < |files| && files[i] == f && f.id == id && forall k :: 0 <= k < i ==> files[k].id != id
  }

  ghost predicate HasTransfer(source: Source, job: Job) {
    exists t <- source.transfers :: t.id == job.transferId
  }

  /** Where the search stops. */
  lemma {:induction false} FindStops(files: seq<SourceFile>, id: string) returns (i: nat)
    ensures i <= |files| && forall k :: 0 <= k < i ==> files[k].id != id
    ensures i == |files| ==> FindFile(files, id).None?
    ensures i < |files| ==> files[i].id == id && FindFile(files, id) == Some(files[i])
  {
    if files == [] || files[0].id == id {
      i := 0;
    } else {
      i := FindStops(files[1..], id);
      i := i + 1;
      assert forall k :: 0 < k < i ==> files[k] == files[1..][k - 1];
    }
  }

  lemma FileIsFirst(files: seq<SourceFile>, id: string, f: SourceFile)
    ensures FindFile(files, id) == Some(f) <==> IsFirst(files, id, f)
    ensures FindFile(files, id).None? <==> forall x <- files :: x.id != id
  {
    var i := FindStops(files, id);
    assert i < |files| ==> files[i] in files;
  }

  lemma {:induction false} FoundIsTheOne(transfers: seq<Transfer>, t: Transfer)
    requires DistinctIds(transfers) && t in transfers
    ensures FindTransfer(transfers, t.id) == Some(t)
  {
    if transfers[0] != t {
      assert t in transfers[1..];
      var i :| 0 <= i < |transfers| && transfers[i] == t;
      assert transfers[0].id != transfers[i].id;
      FoundIsTheOne(transfers[1..], t);
    }
  }

  /** The two lookups together, on a bundle without two transfers of one id. */
  lemma LookupsFind(source: Source, job: Job)
    requires DistinctIds(source.transfers)
    ensures var t := FindTransfer(source.transfers, job.transferId);
      && (t.Some? <==> HasTransfer(source, job))
      && forall f :: HasFile(source, job, f) <==> t.Some? && FindFile(t.value.files, job.mediaId) == Some(f)
  {
    FoundTransfer(source.transfers, job.transferId);
    forall t | t in source.transfers && t.id == job.transferId
      ensures FindTransfer(source.transfers, job.transferId) == Some(t)
    {
      FoundIsTheOne(source.transfers, t);
    }
    forall t: Transfer, f
      ensures IsFirst(t.files, job.mediaId, f) <==> FindFile(t.files, job.mediaId) == Some(f)
    {
      FileIsFirst(t.files, job.mediaId, f);
    }
  }

  // ---- Which jobs are well formed ----

  ghost predicate HasString(fields: map<string, Json>, name: string) {
    name in fields && fields[name].Str?
  }

  ghost predicate HasInteger(fields: map<string, Json>, name: string, n: int) {
    name in fields && fields[name] == Num(n as real)
  }

  /** The fields of the object that must hold the job: that under `job`, if there is one, or the entry itself. */
  ghost predicate JobFields(raw: Json, fields: map<string, Json>) {
    && raw.Obj?
    && fields == if "job" in raw.fields && raw.fields["job"].Obj? then raw.fields["job"].fields else raw.fields
  }

  /** Every field the queue needs, of its type and in its range. */
  ghost predicate IsWellFormed(env: Env, fields: map<string, Json>) {
    && HasString(fields, "transferId") && HasString(fields, "storageKey") && HasString(fields, "mimeType")
    && HasString(fields, "mediaId") && fields["mediaId"].s != ""
    && HasString(fields, "idempotencyKey") && fields["idempotencyKey"].s != ""
    && HasString(fields, "enqueuedAt") && env.isDate(fields["enqueuedAt"].s)
    && HasString(fields, "processingRoute")
    && fields["processingRoute"].s in {"local_image", "local_gif", "local_video", "raw_try_local",
                                       "worker_raw", "worker_image", "worker_gif", "worker_video"}
    && (exists n :: 1 <= n && HasInteger(fields, "attempt", n))
    && ("deliveryAttempt" in fields ==> exists n :: 0 <= n && HasInteger(fields, "deliveryAttempt", n))
    && "file" in fields && fields["file"].Obj? && HasString(fields["file"].fields, "name")
  }

  ghost predicate IsJobOf(job: Job, fields: map<string, Json>) {
    && HasString(fields, "transferId") && job.transferId == fields["transferId"].s
    && HasString(fields, "mediaId") && job.mediaId == fields["mediaId"].s
    && HasString(fields, "storageKey") && job.storageKey == fields["storageKey"].s
    && HasString(fields, "idempotencyKey") && job.idempotencyKey == fields["idempotencyKey"].s
    && HasInteger(fields, "attempt", job.attempt)
    && (if "deliveryAttempt" in fields then HasInteger(fields, "deliveryAttempt", job.delivery) else job.delivery == 0)
    && job.body == Obj(fields)
  }

  lemma IntegerFields(fields: map<string, Json>, name: string, least: int)
    ensures IsInt(Field(Some(Obj(fields)), name), least) <==> exists n :: least <= n && HasInteger(fields, name, n)
  {
    if IsInt(Field(Some(Obj(fields)), name), least) {
      assert HasInteger(fields, name, fields[name].n.Floor);
    }
  }

  /** `parseJob` accepts exactly the well-formed entries, and gives what their fields say. */
  lemma ParseJobExactly(env: Env, raw: Json, fields: map<string, Json>)
    ensures !raw.Obj? ==> ParseJob(env, raw).None?
    ensures JobFields(raw, fields) ==> (ParseJob(env, raw).Some? <==> IsWellFormed(env, fields))
    ensures JobFields(raw, fields) && ParseJob(env, raw).Some? ==> IsJobOf(ParseJob(env, raw).value, fields)
  {
    IntegerFields(fields, "attempt", 1);
    IntegerFields(fields, "deliveryAttempt", 0);
  }

  // ---- Which entries are jobs, and why the others are not ----

  ghost predicate IsJob(env: Env, source: Source, raw: Json, job: Job, f: SourceFile) {
    ParseJob(env, raw) == Some(job) && HasFile(source, job, f) && f.storageKey == job.storageKey
  }

  ghost predicate IsNoJob(env: Env, source: Source, raw: Json, reason: string) {
    var parsed := ParseJob(env, raw);
    || (reason == "invalid_job" && parsed.None?)
    || (reason == "missing_transfer" && parsed.Some? && !HasTransfer(source, parsed.value))
    || (reason == "missing_file" && parsed.Some? && HasTransfer(source, parsed.value)
        && forall f :: !HasFile(source, parsed.value, f))
    || (reason == "source_key_mismatch" && parsed.Some?
        && exists f :: HasFile(source, parsed.value, f) && f.storageKey != parsed.value.storageKey)
  }

  /** The verdict on every entry, on a bundle without two transfers of one id. */
  lemma JudgeMeans(env: Env, source: Source, raw: Json)
    requires DistinctIds(source.transfers)
    ensures forall job, f :: Judge(env, source, raw) == Accepted(job, f) <==> IsJob(env, source, raw, job, f)
    ensures forall reason :: Judge(env, source, raw) == Rejected(reason) <==> IsNoJob(env, source, raw, reason)
  {
    var parsed := ParseJob(env, raw);
    if parsed.Some? {
      LookupsFind(source, parsed.value);
      var t := FindTransfer(source.transfers, parsed.value.transferId);
      var f := if t.Some? then FindFile(t.value.files, parsed.value.mediaId) else None;
      assert f.Some? ==> HasFile(source, parsed.value, f.value);
    }
  }

  // ---- The rows of a first import ----

  /** The row of an accepted entry, column by column. */
  ghost predicate RowFits(row: JobRow, hash: string, e: Entry, job: Job, f: SourceFile) {
    var done := f.status == "worker_done" || f.status == "local_done";
    && (row.status == Completed <==> done)
    && (row.status == Pending <==> !done && f.status != "failed" && f.status != "skipped" && e.list != Dead)
    && row.status != OtherStatus
    && row.attempts == job.delivery + (if e.list == Processing then 1 else 0)
    && row.maxAttempts >= 5 && row.maxAttempts >= row.attempts && row.maxAttempts in {5, row.attempts}
    && row.id == FromEntry(e.raw) && row.entry == Some(e.raw)
    && row.idempotencyKey == job.idempotencyKey && row.payload == job.body
    && row.origin == Some(Origin(hash, e.list, e.index))
  }

  ghost predicate HasJobRow(db: Db, hash: string, e: Entry, job: Job, f: SourceFile) {
    var key := JobKey(job.transferId, job.mediaId, "process", job.attempt);
    key in db.jobs && RowFits(db.jobs[key], hash, e, job, f)
  }

  ghost predicate HasQuarantineRow(db: Db, hash: string, e: Entry, reason: string) {
    var origin := Origin(hash, e.list, e.index);
    origin in db.quarantine && db.quarantine[origin] == QuarantineRow(e.raw, reason)
  }

  /** An entry that is a job has the row of that job, any other one a quarantine row with the reason. */
  ghost predicate HasItsRow(env: Env, source: Source, db: Db, hash: string, e: Entry) {
    && (forall job, f :: IsJob(env, source, e.raw, job, f) ==> HasJobRow(db, hash, e, job, f))
    && (forall reason :: IsNoJob(env, source, e.raw, reason) ==> HasQuarantineRow(db, hash, e, reason))
  }

  /** Exactly the row that `importJob` inserts. */
  ghost predicate HasExactRow(env: Env, source: Source, db: Db, e: Entry) {
    match Judge(env, source, e.raw)
    case Accepted(job, f) => KeyOf(job) in db.jobs && db.jobs[KeyOf(job)] == RowOf(source.hash, e, job, f)
    case Rejected(reason) =>
      OriginOf(source, e) in db.quarantine && db.quarantine[OriginOf(source, e)] == QuarantineRow(e.raw, reason)
  }

  lemma NewJobHasExactRow(env: Env, source: Source, db: Db, e: Entry)
    requires ImportJob(env, source, db, e).Success? && !HasOrigin(db, OriginOf(source, e))
    ensures HasExactRow(env, source, ImportJob(env, source, db, e).value, e)
  {}

  lemma ExactRowStays(env: Env, source: Source, a: Db, b: Db, e: Entry)
    requires HasExactRow(env, source, a, e) && Grows(a, b)
    ensures HasExactRow(env, source, b, e)
  {}

  lemma NextRowIsExact(env: Env, source: Source, db: Db, front: seq<Entry>, last: Entry)
    requires ImportJob(env, source, db, last).Success? && !HasOrigin(db, OriginOf(source, last))
    requires forall e <- front :: HasExactRow(env, source, db, e)
    ensures forall e <- front + [last] :: HasExactRow(env, source, ImportJob(env, source, db, last).value, e)
  {
    var r := ImportJob(env, source, db, last).value;
    NewJobHasExactRow(env, source, db, last);
    JobSettles(env, source, db, last);
    forall e | e in front
      ensures HasExactRow(env, source, r, e)
    {
      ExactRowStays(env, source, db, r, e);
    }
  }

  lemma LastOriginIsFree(env: Env, source: Source, db: Db, entries: seq<Entry>)
    requires entries != [] && ImportJobs(env, source, db, entries[..|entries| - 1]).Success?
    requires DistinctOrigins(entries) && Unused(source, db, entries)
    ensures var d := ImportJobs(env, source, db, entries[..|entries| - 1]).value;
      !HasOrigin(d, OriginOf(source, entries[|entries| - 1]))
  {
    JobsOrigins(env, source, db, entries[..|entries| - 1], OriginOf(source, entries[|entries| - 1]));
    LastIsNew(env, source, entries, Imported);
    assert entries[|entries| - 1] in entries;
  }

  lemma {:induction false} FirstRowsAreExact(env: Env, source: Source, db: Db, entries: seq<Entry>)
    requires ImportJobs(env, source, db, entries).Success?
    requires DistinctOrigins(entries) && Unused(source, db, entries)
    ensures forall e <- entries :: HasExactRow(env, source, ImportJobs(env, source, db, entries).value, e)
  {
    if entries != [] {
      var front, last := entries[..|entries| - 1], entries[|entries| - 1];
      FirstRowsAreExact(env, source, db, front);
      LastOriginIsFree(env, source, db, entries);
      NextRowIsExact(env, source, ImportJobs(env, source, db, front).value, front, last);
      assert entries == front + [last];
    }
  }

  lemma ExactRowFits(env: Env, source: Source, db: Db, e: Entry)
    requires DistinctIds(source.transfers) && HasExactRow(env, source, db, e)
    ensures HasItsRow(env, source, db, source.hash, e)
  {
    JudgeMeans(env, source, e.raw);
    forall job, f | IsJob(env, source, e.raw, job, f)
      ensures HasJobRow(db, source.hash, e, job, f)
    {
      assert Judge(env, source, e.raw) == Accepted(job, f);
    }
    forall reason | IsNoJob(env, source, e.raw, reason)
      ensures HasQuarantineRow(db, source.hash, e, reason)
    {
      assert Judge(env, source, e.raw) == Rejected(reason);
    }
  }

  /**
   * After a first import every entry has its row, with its status, attempts and
   * origin, and nothing that was in the database is gone or changed but for
   * generations that rose.
   */
  lemma FirstImportRows(env: Env, source: Source, hash: string, db: Db)
    requires Import(env, source, hash, db).Success? && Unused(source, db, Entries(source))
    ensures var r := Import(env, source, hash, db).value.db;
      Grows(db, r) && forall e <- Entries(source) :: HasItsRow(env, source, r, hash, e)
  {
    var d := ImportTransfers(env, db, source.transfers, hash).value;
    var raised := d.(files := Raised(d.files, Generations(env, source, Entries(source))));
    TransfersSettle(env, db, source.transfers, hash);
    JobsSettle(env, source, raised, Entries(source));
    EntriesAreDistinct(source);
    assert Unused(source, raised, Entries(source));
    FirstRowsAreExact(env, source, raised, Entries(source));
    var r := ImportJobs(env, source, raised, Entries(source)).value;
    GrowsTransitive(db, d, raised);
    GrowsTransitive(db, raised, r);
    forall e | e in Entries(source)
      ensures HasItsRow(env, source, r, hash, e)
    {
      ExactRowFits(env, source, r, e);
    }
  }

  /** Whichever import made it, the row of an accepted entry is of that entry: its key, payload and origin. */
  ghost predicate HasOwnRow(env: Env, source: Source, db: Db, hash: string, e: Entry) {
    && (forall job, f :: IsJob(env, source, e.raw, job, f) ==>
          var key := JobKey(job.transferId, job.mediaId, "process", job.attempt);
          && key in db.jobs
          && db.jobs[key].idempotencyKey == job.idempotencyKey && db.jobs[key].payload == job.body
          && db.jobs[key].origin == Some(Origin(hash, e.list, e.index)) && db.jobs[key].entry == Some(e.raw))
    && (forall reason :: IsNoJob(env, source, e.raw, reason) ==> HasQuarantineRow(db, hash, e, reason))
  }

  lemma SettledIsOwn(env: Env, source: Source, db: Db, e: Entry)
    requires DistinctIds(source.transfers) && Settled(env, source, db, e)
    ensures HasOwnRow(env, source, db, source.hash, e)
  {
    JudgeMeans(env, source, e.raw);
    forall job, f | IsJob(env, source, e.raw, job, f)
      ensures Judge(env, source, e.raw) == Accepted(job, f)
    {
    }
    forall reason | IsNoJob(env, source, e.raw, reason)
      ensures Judge(env, source, e.raw) == Rejected(reason)
    {
    }
  }

  /**
   * After any successful import each transfer's row is of this bundle, payload
   * and token, and each entry's row is its own: what another import left in its
   * place makes the import fail.
   */
  lemma RowsAreOwn(env: Env, source: Source, hash: string, db: Db)
    requires Import(env, source, hash, db).Success?
    ensures var r := Import(env, source, hash, db).value.db;
      && (forall t <- source.transfers ::
            t.id in r.transfers && r.transfers[t.id] == TransferRow(Some(hash), t, t.deleteToken))
      && (forall e <- Entries(source) :: HasOwnRow(env, source, r, hash, e))
  {
    ImportSettles(env, source, hash, db);
    var r := Import(env, source, hash, db).value.db;
    forall t | t in source.transfers
      ensures t.id in r.transfers && r.transfers[t.id] == TransferRow(Some(hash), t, t.deleteToken)
    {
      assert TransferSettled(env, r, t, hash);
    }
    forall e | e in Entries(source)
      ensures HasOwnRow(env, source, r, hash, e)
    {
      SettledIsOwn(env, source, r, e);
    }
  }

  // ---- The file rows ----

  /** A file of one of the transfers that were not in the table. */
  ghost predicate IsNewFile(db: Db, transfers: seq<Transfer>, f: FileKey) {
    exists t <- transfers :: t.id == f.0 && t.id !in db.transfers && exists x <- t.files :: x.id == f.1
  }

  lemma NewFileNext(db: Db, transfers: seq<Transfer>, f: FileKey)
    requires transfers != []
    ensures var last := transfers[|transfers| - 1];
      IsNewFile(db, transfers, f) <==>
        IsNewFile(db, transfers[..|transfers| - 1], f) || (last.id !in db.transfers && f in FileKeys(last))
  {
    assert transfers == transfers[..|transfers| - 1] + [transfers[|transfers| - 1]];
  }

  /** Inserted files start at generation one beside those already there. */
  lemma {:induction false} NewFilesStartAtOne(env: Env, db: Db, transfers: seq<Transfer>, hash: string)
    requires DistinctIds(transfers) && ImportTransfers(env, db, transfers, hash).Success?
    ensures var d := ImportTransfers(env, db, transfers, hash).value;
      && (forall id :: id in d.transfers <==> id in db.transfers || exists t <- transfers :: t.id == id)
      && (forall f :: f in d.files <==> f in db.files || IsNewFile(db, transfers, f))
      && (forall f <- d.files :: d.files[f] == if f in db.files then db.files[f] else 1)
  {
    if transfers != [] {
      var front, last := transfers[..|transfers| - 1], transfers[|transfers| - 1];
      NewFilesStartAtOne(env, db, front, hash);
      assert transfers == front + [last];
      assert forall t <- front :: t.id != last.id;
      forall f
        ensures IsNewFile(db, transfers, f) <==>
          IsNewFile(db, front, f) || (last.id !in db.transfers && f in FileKeys(last))
      {
        NewFileNext(db, transfers, f);
      }
    }
  }

  // ---- When a first import goes through ----

  const EMPTY := Db(map[], map[], map[], map[])

  ghost predicate FitsColumn(n: int) {
    -0x8000_0000 <= n <= 0x7fff_ffff
  }

  /** The numbers an entry brings fit the columns they go to. */
  ghost predicate FitsColumns(env: Env, source: Source, e: Entry) {
    && (forall job, f :: IsJob(env, source, e.raw, job, f) ==>
          FitsColumn(job.attempt) && FitsColumn(job.delivery + if e.list == Processing then 1 else 0))
    && (forall reason :: IsNoJob(env, source, e.raw, reason) ==> FitsColumn(e.index))
  }

  /** Two entries are jobs with one idempotency key, or for one generation of one file. */
  ghost predicate Contend(env: Env, source: Source, a: Entry, b: Entry) {
    exists j, f, k, g ::
      && IsJob(env, source, a.raw, j, f) && IsJob(env, source, b.raw, k, g)
      && (j.idempotencyKey == k.idempotencyKey
          || (j.transferId == k.transferId && j.mediaId == k.mediaId && j.attempt == k.attempt))
  }

  ghost predicate IsAcceptable(env: Env, t: Transfer) {
    env.acceptable(t) && forall i, j :: 0 <= i < j < |t.files| ==> t.files[i].id != t.files[j].id
  }

  ghost predicate AllAcceptable(env: Env, transfers: seq<Transfer>) {
    forall t <- transfers :: IsAcceptable(env, t)
  }

  ghost predicate NoneContend(env: Env, source: Source, entries: seq<Entry>) {
    forall i, j :: 0 <= i < j < |entries| ==> !Contend(env, source, entries[i], entries[j])
  }

  lemma NewTransferGoesIn(env: Env, db: Db, t: Transfer, hash: string)
    requires t.id !in db.transfers && forall f <- db.files :: f.0 != t.id
    ensures ImportTransfer(env, db, t, hash).Success? <==> IsAcceptable(env, t)
  {}

  lemma {:induction false} NewTransfersGoIn(env: Env, transfers: seq<Transfer>, hash: string)
    requires DistinctIds(transfers)
    ensures ImportTransfers(env, EMPTY, transfers, hash).Success? <==> AllAcceptable(env, transfers)
  {
    if transfers != [] {
      var front, last := transfers[..|transfers| - 1], transfers[|transfers| - 1];
      NewTransfersGoIn(env, front, hash);
      assert transfers == front + [last];
      if AllAcceptable(env, front) {
        NewFilesStartAtOne(env, EMPTY, front, hash);
        assert forall t <- front :: t.id != last.id;
        NewTransferGoesIn(env, ImportTransfers(env, EMPTY, front, hash).value, last, hash);
      }
    }
  }

  ghost predicate HasKey(env: Env, source: Source, e: Entry, k: JobKey) {
    Judge(env, source, e.raw).Accepted? && KeyOf(Judge(env, source, e.raw).job) == k
  }

  /** The job rows are those of these entries. */
  ghost predicate RowsAreOf(env: Env, source: Source, db: Db, entries: seq<Entry>) {
    && (forall e <- entries :: HasExactRow(env, source, db, e))
    && (forall k <- db.jobs :: exists e <- entries :: HasKey(env, source, e, k))
    && (forall o <- db.quarantine :: exists e <- entries :: OriginOf(source, e) == o)
  }

  /** Nothing stands in the way of one more entry. */
  ghost predicate GoesIn(env: Env, source: Source, entries: seq<Entry>, last: Entry) {
    && FitsColumns(env, source, last)
    && forall e <- entries :: !Contend(env, source, e, last)
  }

  lemma ContendMeans(env: Env, source: Source, a: Entry, b: Entry)
    requires DistinctIds(source.transfers)
    ensures var v, w := Judge(env, source, a.raw), Judge(env, source, b.raw);
      Contend(env, source, a, b) <==>
        v.Accepted? && w.Accepted? && (v.job.idempotencyKey == w.job.idempotencyKey || KeyOf(v.job) == KeyOf(w.job))
  {
    JudgeMeans(env, source, a.raw);
    JudgeMeans(env, source, b.raw);
    var v, w := Judge(env, source, a.raw), Judge(env, source, b.raw);
    if v.Accepted? && w.Accepted? {
      assert IsJob(env, source, a.raw, v.job, v.file) && IsJob(env, source, b.raw, w.job, w.file);
    }
  }

  lemma FitsMeans(env: Env, source: Source, e: Entry)
    requires DistinctIds(source.transfers)
    ensures FitsColumns(env, source, e) <==>
      match Judge(env, source, e.raw)
      case Accepted(job, f) => Int4(job.attempt) && Int4(RowOf(source.hash, e, job, f).attempts)
      case Rejected(_) => Int4(e.index)
  {
    JudgeMeans(env, source, e.raw);
    match Judge(env, source, e.raw)
    case Accepted(job, f) => assert IsJob(env, source, e.raw, job, f);
    case Rejected(reason) => assert IsNoJob(env, source, e.raw, reason);
  }

  /** Every job of the bundle has its file row. */
  ghost predicate FilesExist(env: Env, source: Source, db: Db) {
    forall raw, job, f :: IsJob(env, source, raw, job, f) ==> (job.transferId, job.mediaId) in db.files
  }

  ghost predicate IsNewOrigin(source: Source, entries: seq<Entry>, last: Entry) {
    forall e <- entries :: OriginOf(source, e) != OriginOf(source, last)
  }

  lemma ContentionIsKeys(env: Env, source: Source, front: seq<Entry>, last: Entry)
    requires DistinctIds(source.transfers) && Judge(env, source, last.raw).Accepted?
    ensures var job := Judge(env, source, last.raw).job;
      (exists e <- front :: Contend(env, source, e, last)) <==>
        || (exists e <- front :: HasKey(env, source, e, KeyOf(job)))
        || (exists e <- front :: HasIdempotencyKey(env, source, e, job.idempotencyKey))
  {
    forall e | e in front
      ensures Contend(env, source, e, last) <==>
        || HasKey(env, source, e, KeyOf(Judge(env, source, last.raw).job))
        || HasIdempotencyKey(env, source, e, Judge(env, source, last.raw).job.idempotencyKey)
    {
      ContendMeans(env, source, e, last);
    }
  }

  lemma TakenKeyIsRefused(env: Env, source: Source, db: Db, front: seq<Entry>, last: Entry)
    requires RowsAreOf(env, source, db, front) && IsNewOrigin(source, front, last)
    requires Judge(env, source, last.raw).Accepted? && KeyOf(Judge(env, source, last.raw).job) in db.jobs
    ensures exists e <- front :: HasKey(env, source, e, KeyOf(Judge(env, source, last.raw).job))
    ensures ImportJob(env, source, db, last).Failure?
  {
    var e := RowComesFrom(env, source, db, front, KeyOf(Judge(env, source, last.raw).job));
    assert OriginOf(source, e) != OriginOf(source, last);
  }

  lemma FreeKeyIsInserted(env: Env, source: Source, db: Db, last: Entry)
    requires DistinctIds(source.transfers) && FilesExist(env, source, db)
    requires Judge(env, source, last.raw).Accepted? && KeyOf(Judge(env, source, last.raw).job) !in db.jobs
    ensures var v := Judge(env, source, last.raw);
      var row := RowOf(source.hash, last, v.job, v.file);
      ImportJob(env, source, db, last).Success? <==>
        FitsColumns(env, source, last) && !exists k <- db.jobs :: Clashes(db.jobs[k], row)
  {
    var v := Judge(env, source, last.raw);
    JudgeMeans(env, source, last.raw);
    assert IsJob(env, source, last.raw, v.job, v.file);
    FitsMeans(env, source, last);
  }

  /** The row of an accepted entry is refused exactly if an earlier entry contends for its key or idempotency key. */
  lemma JobGoesIn(env: Env, source: Source, db: Db, front: seq<Entry>, last: Entry)
    requires DistinctIds(source.transfers) && RowsAreOf(env, source, db, front) && FilesExist(env, source, db)
    requires IsNewOrigin(source, front, last) && Judge(env, source, last.raw).Accepted?
    ensures ImportJob(env, source, db, last).Success? <==> GoesIn(env, source, front, last)
  {
    ContentionIsKeys(env, source, front, last);
    if KeyOf(Judge(env, source, last.raw).job) in db.jobs {
      TakenKeyIsRefused(env, source, db, front, last);
    } else {
      FreeKeyIsInserted(env, source, db, last);
      KeyIsFree(env, source, db, front, last);
    }
  }

  lemma RowComesFrom(env: Env, source: Source, db: Db, entries: seq<Entry>, k: JobKey) returns (e: Entry)
    requires RowsAreOf(env, source, db, entries) && k in db.jobs
    ensures e in entries && HasKey(env, source, e, k)
    ensures db.jobs[k]
            == RowOf(source.hash, e, Judge(env, source, e.raw).job, Judge(env, source, e.raw).file)
  {
    e :| e in entries && HasKey(env, source, e, k);
    assert HasExactRow(env, source, db, e);
  }

  ghost predicate HasIdempotencyKey(env: Env, source: Source, e: Entry, key: string) {
    Judge(env, source, e.raw).Accepted? && Judge(env, source, e.raw).job.idempotencyKey == key
  }

  lemma ClashIsContention(env: Env, source: Source, db: Db, front: seq<Entry>, last: Entry, k: JobKey)
    requires RowsAreOf(env, source, db, front) && IsNewOrigin(source, front, last) && k in db.jobs
    requires Judge(env, source, last.raw).Accepted? && KeyOf(Judge(env, source, last.raw).job) !in db.jobs
    ensures var v := Judge(env, source, last.raw);
      Clashes(db.jobs[k], RowOf(source.hash, last, v.job, v.file)) ==>
        exists e <- front :: HasIdempotencyKey(env, source, e, v.job.idempotencyKey)
  {
    var e := RowComesFrom(env, source, db, front, k);
    assert OriginOf(source, e) != OriginOf(source, last);
  }

  /** Where no earlier entry has its key, a row is refused exactly for its idempotency key. */
  lemma KeyIsFree(env: Env, source: Source, db: Db, front: seq<Entry>, last: Entry)
    requires RowsAreOf(env, source, db, front) && IsNewOrigin(source, front, last)
    requires Judge(env, source, last.raw).Accepted? && KeyOf(Judge(env, source, last.raw).job) !in db.jobs
    ensures var v := Judge(env, source, last.raw);
      var row := RowOf(source.hash, last, v.job, v.file);
      && (forall e <- front :: !HasKey(env, source, e, KeyOf(v.job)))
      && ((exists k <- db.jobs :: Clashes(db.jobs[k], row)) <==>
            exists e <- front :: HasIdempotencyKey(env, source, e, v.job.idempotencyKey))
  {
    var v := Judge(env, source, last.raw);
    var row := RowOf(source.hash, last, v.job, v.file);
    forall e | e in front
      ensures Judge(env, source, e.raw).Accepted? ==>
        var w := Judge(env, source, e.raw);
        KeyOf(w.job) in db.jobs && db.jobs[KeyOf(w.job)] == RowOf(source.hash, e, w.job, w.file)
    {
      assert HasExactRow(env, source, db, e);
    }
    forall k | k in db.jobs
      ensures Clashes(db.jobs[k], row) ==> exists e <- front :: HasIdempotencyKey(env, source, e, v.job.idempotencyKey)
    {
      ClashIsContention(env, source, db, front, last, k);
    }
    forall e | e in front && HasIdempotencyKey(env, source, e, v.job.idempotencyKey)
      ensures Clashes(db.jobs[KeyOf(Judge(env, source, e.raw).job)], row)
    {
    }
  }

  lemma NoJobGoesIn(env: Env, source: Source, db: Db, front: seq<Entry>, last: Entry)
    requires DistinctIds(source.transfers) && RowsAreOf(env, source, db, front)
    requires IsNewOrigin(source, front, last) && Judge(env, source, last.raw).Rejected?
    ensures ImportJob(env, source, db, last).Success? <==> GoesIn(env, source, front, last)
  {
    FitsMeans(env, source, last);
    forall e | e in front
      ensures !Contend(env, source, e, last)
    {
      ContendMeans(env, source, e, last);
    }
  }

  lemma OriginIsFree(env: Env, source: Source, db: Db, front: seq<Entry>, last: Entry)
    requires RowsAreOf(env, source, db, front) && IsNewOrigin(source, front, last)
    ensures !HasOrigin(db, OriginOf(source, last))
  {
    forall k | k in db.jobs
      ensures db.jobs[k].origin != Some(OriginOf(source, last))
    {
      var e := RowComesFrom(env, source, db, front, k);
    }
  }

  /** A new row is that of the new entry. */
  lemma NewRowIsOfLast(env: Env, source: Source, db: Db, last: Entry)
    requires ImportJob(env, source, db, last).Success?
    ensures var d := ImportJob(env, source, db, last).value;
      && (forall k <- d.jobs :: k in db.jobs || HasKey(env, source, last, k))
      && (forall o <- d.quarantine :: o in db.quarantine || OriginOf(source, last) == o)
      && d.files == db.files
  {}

  lemma RowsAreOfNext(env: Env, source: Source, db: Db, front: seq<Entry>, last: Entry)
    requires RowsAreOf(env, source, db, front) && IsNewOrigin(source, front, last)
    requires ImportJob(env, source, db, last).Success?
    ensures var d := ImportJob(env, source, db, last).value;
      RowsAreOf(env, source, d, front + [last]) && d.files == db.files
  {
    OriginIsFree(env, source, db, front, last);
    NextRowIsExact(env, source, db, front, last);
    NewRowIsOfLast(env, source, db, last);
    var d := ImportJob(env, source, db, last).value;
    assert last in front + [last];
    forall k | k in d.jobs
      ensures exists e <- front + [last] :: HasKey(env, source, e, k)
    {
      if k in db.jobs {
        var e := RowComesFrom(env, source, db, front, k);
        assert e in front + [last];
      }
    }
    forall o | o in d.quarantine
      ensures exists e <- front + [last] :: OriginOf(source, e) == o
    {
      if o in db.quarantine {
        var e :| e in front && OriginOf(source, e) == o;
        assert e in front + [last];
      }
    }
  }

  lemma {:induction false} EntriesGoIn(env: Env, source: Source, db: Db, entries: seq<Entry>)
    requires DistinctIds(source.transfers) && FilesExist(env, source, db) && db.jobs == map[] && db.quarantine == map[]
    requires DistinctOrigins(entries)
    ensures var r := ImportJobs(env, source, db, entries);
      && (r.Success? <==> (forall e <- entries :: FitsColumns(env, source, e)) && NoneContend(env, source, entries))
      && (r.Success? ==> RowsAreOf(env, source, r.value, entries) && r.value.files == db.files)
  {
    if entries != [] {
      var front, last := entries[..|entries| - 1], entries[|entries| - 1];
      EntriesGoIn(env, source, db, front);
      assert entries == front + [last];
      assert IsNewOrigin(source, front, last);
      NoneContendNext(env, source, front, last);
      var r := ImportJobs(env, source, db, front);
      if r.Success? {
        if Judge(env, source, last.raw).Accepted? {
          JobGoesIn(env, source, r.value, front, last);
        } else {
          NoJobGoesIn(env, source, r.value, front, last);
        }
        if ImportJob(env, source, r.value, last).Success? {
          RowsAreOfNext(env, source, r.value, front, last);
        }
      }
    }
  }

  lemma NoneContendNext(env: Env, source: Source, front: seq<Entry>, last: Entry)
    ensures NoneContend(env, source, front + [last]) <==>
      NoneContend(env, source, front) && forall e <- front :: !Contend(env, source, e, last)
  {
    var entries := front + [last];
    assert forall i :: 0 <= i < |front| ==> entries[i] == front[i];
    if NoneContend(env, source, entries) {
      forall e | e in front
        ensures !Contend(env, source, e, last)
      {
        var i :| 0 <= i < |front| && front[i] == e;
        assert !Contend(env, source, entries[i], entries[|front|]);
      }
      forall i, j | 0 <= i < j < |front|
        ensures !Contend(env, source, front[i], front[j])
      {
        assert !Contend(env, source, entries[i], entries[j]);
      }
    }
  }

  lemma JobsHaveFiles(env: Env, source: Source, hash: string)
    requires DistinctIds(source.transfers) && ImportTransfers(env, EMPTY, source.transfers, hash).Success?
    ensures FilesExist(env, source, ImportTransfers(env, EMPTY, source.transfers, hash).value)
  {
    NewFilesStartAtOne(env, EMPTY, source.transfers, hash);
    forall raw, job, f | IsJob(env, source, raw, job, f)
      ensures IsNewFile(EMPTY, source.transfers, (job.transferId, job.mediaId))
    {
      var t :| t in source.transfers && t.id == job.transferId && IsFirst(t.files, job.mediaId, f);
      assert f in t.files;
    }
  }

  /** A generation that does not fit its column is that of some job. */
  lemma {:induction false} FittingJobsAreInRange(env: Env, source: Source, entries: seq<Entry>)
    requires DistinctIds(source.transfers) && forall e <- entries :: FitsColumns(env, source, e)
    ensures InRange(Generations(env, source, entries))
  {
    if entries != [] {
      FittingJobsAreInRange(env, source, entries[..|entries| - 1]);
      FitsMeans(env, source, entries[|entries| - 1]);
    }
  }

  /**
   * The bundle is the one named by the hash, no two transfers have one id, no two
   * files of a transfer have one, every number fits its column, and no two jobs
   * contend.
   */
  ghost predicate GoesThrough(env: Env, source: Source, hash: string) {
    && source.hash == hash
    && (forall i, j :: 0 <= i < j < |source.transfers| ==> source.transfers[i].id != source.transfers[j].id)
    && AllAcceptable(env, source.transfers)
    && (forall e <- Entries(source) :: FitsColumns(env, source, e))
    && NoneContend(env, source, Entries(source))
  }

  /** An import into an empty database is committed if and only if the bundle is of that kind. */
  lemma FirstImportGoesThrough(env: Env, source: Source, hash: string)
    ensures Import(env, source, hash, EMPTY).Success? <==> GoesThrough(env, source, hash)
  {
    if source.hash == hash && DistinctIds(source.transfers) {
      NewTransfersGoIn(env, source.transfers, hash);
      var transferred := ImportTransfers(env, EMPTY, source.transfers, hash);
      if transferred.Success? {
        var d := transferred.value;
        var raised := d.(files := Raised(d.files, Generations(env, source, Entries(source))));
        TransfersSettle(env, EMPTY, source.transfers, hash);
        JobsHaveFiles(env, source, hash);
        EntriesAreDistinct(source);
        EntriesGoIn(env, source, raised, Entries(source));
        if forall e <- Entries(source) :: FitsColumns(env, source, e) {
          FittingJobsAreInRange(env, source, Entries(source));
        }
      }
    }
  }
}
