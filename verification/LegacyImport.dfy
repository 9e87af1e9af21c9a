/**
 * The one-shot import of ops/import-legacy-transfers.ts as a transaction over
 * keyed tables.  Hashes are injective, so a hash is modelled by what it is the
 * hash of; a statement that violates a constraint fails the whole import.
 */
module LegacyImport {
  import opened Basics

  // ---- The source bundle ----

  datatype Json = Null | Bool(b: bool) | Num(n: real) | Str(s: string)
    | Arr(items: seq<Json>) | Obj(fields: map<string, Json>)

  datatype SourceFile = SourceFile(id: string, storageKey: string, status: string)

  datatype Transfer = Transfer(id: string, deleteToken: string, files: seq<SourceFile>, rest: string)

  datatype SourceList = Queued | Processing | Dead

  datatype Source = Source(hash: string, transfers: seq<Transfer>, queued: seq<Json>, processing: seq<Json>,
                           dead: seq<Json>)

  datatype Job = Job(transferId: string, mediaId: string, storageKey: string, idempotencyKey: string,
                     attempt: int, delivery: int, body: Json)

  /** Facts the import asks of code it does not hold: what parses as a date, and what a transfer must satisfy. */
  datatype Env = Env(isDate: string -> bool, acceptable: Transfer -> bool)

  const ROUTES := {"local_image", "local_gif", "local_video", "raw_try_local",
                   "worker_raw", "worker_image", "worker_gif", "worker_video"}

  function Field(o: Option<Json>, name: string): Option<Json> {
    if o.Some? && o.value.Obj? && name in o.value.fields then Some(o.value.fields[name]) else None
  }

  function AsObject(v: Option<Json>): Option<Json> {
    if v.Some? && v.value.Obj? then v else None
  }

  predicate IsStr(v: Option<Json>) {
    v.Some? && v.value.Str?
  }

  predicate IsInt(v: Option<Json>, least: int) {
    v.Some? && v.value.Num? && v.value.n == v.value.n.Floor as real && least <= v.value.n.Floor
  }

  /** `parseJob`: the entry itself, or the object under its `job`, if every field is well formed. */
  function ParseJob(env: Env, raw: Json): (r: Option<Job>)
    ensures r.Some? ==>
      r.value.mediaId != "" && r.value.idempotencyKey != "" && 1 <= r.value.attempt && 0 <= r.value.delivery
  {
    var envelope := AsObject(Some(raw));
    var inner := AsObject(Field(envelope, "job"));
    var value := if inner.Some? then inner else envelope;
    var file := AsObject(Field(value, "file"));
    var transferId, mediaId := Field(value, "transferId"), Field(value, "mediaId");
    var storageKey, mimeType := Field(value, "storageKey"), Field(value, "mimeType");
    var route, key := Field(value, "processingRoute"), Field(value, "idempotencyKey");
    var enqueuedAt, attempt := Field(value, "enqueuedAt"), Field(value, "attempt");
    var delivery := Field(value, "deliveryAttempt");
    if value.None? || file.None? || !IsStr(transferId) || !IsStr(mediaId) || mediaId.value.s == ""
       || !IsStr(storageKey) || !IsStr(mimeType) || !IsStr(route) || route.value.s !in ROUTES
       || !IsStr(key) || key.value.s == "" || !IsStr(enqueuedAt) || !env.isDate(enqueuedAt.value.s)
       || !IsInt(attempt, 1) || (delivery.Some? && !IsInt(delivery, 0)) || !IsStr(Field(file, "name"))
    then None
    else
      Some(Job(transferId.value.s, mediaId.value.s, storageKey.value.s, key.value.s, attempt.value.n.Floor,
               if delivery.Some? then delivery.value.n.Floor else 0, value.value))
  }

  function FindTransfer(transfers: seq<Transfer>, id: string): Option<Transfer> {
    if transfers == [] then None
    else if transfers[0].id == id then Some(transfers[0]) else FindTransfer(transfers[1..], id)
  }

  function FindFile(files: seq<SourceFile>, id: string): Option<SourceFile> {
    if files == [] then None
    else if files[0].id == id then Some(files[0]) else FindFile(files[1..], id)
  }

  // ---- The tables ----

  type FileKey = (string, string)

  datatype TransferRow = TransferRow(source: Option<string>, payload: Transfer, token: string)

  datatype JobKey = JobKey(transferId: string, fileId: string, operation: string, generation: int)

  datatype JobId = FromEntry(entry: Json) | Other(id: string)

  datatype Origin = Origin(hash: string, list: SourceList, index: nat)

  datatype JobStatus = Pending | Completed | DeadJob | OtherStatus

  datatype JobRow = JobRow(id: JobId, idempotencyKey: string, payload: Json, status: JobStatus, attempts: int,
                           maxAttempts: int, origin: Option<Origin>, entry: Option<Json>)

  datatype QuarantineRow = QuarantineRow(entry: Json, reason: string)

  /** `files` holds the processing generation of each file row. */
  datatype Db = Db(transfers: map<string, TransferRow>, files: map<FileKey, int>,
                   jobs: map<JobKey, JobRow>, quarantine: map<Origin, QuarantineRow>)

  datatype Error =
    | RejectedSource | RejectedTransfer | ConflictingTransfer | ConflictingJob | ConflictingQuarantine
    | ConstraintViolation | OutOfRange

  datatype Kind = Imported | Quarantined

  /** An `integer` column. */
  predicate Int4(n: int) {
    -0x8000_0000 <= n < 0x8000_0000
  }

  predicate DistinctFileIds(files: seq<SourceFile>) {
    forall i, j :: 0 <= i < j < |files| ==> files[i].id != files[j].id
  }

  function FileKeys(t: Transfer): set<FileKey> {
    set x | x in t.files :: (t.id, x.id)
  }

  /** New file rows start at the column's default generation. */
  function FileRows(t: Transfer): map<FileKey, int> {
    map f | f in FileKeys(t) :: 1
  }

  function ImportTransfer(env: Env, db: Db, t: Transfer, hash: string): Result<Db, Error> {
    if !env.acceptable(t) then Failure(RejectedTransfer)
    else if t.id !in db.transfers then
      if !DistinctFileIds(t.files) || (exists f <- t.files :: (t.id, f.id) in db.files)
        then Failure(ConstraintViolation)
      else Success(db.(transfers := db.transfers[t.id := TransferRow(Some(hash), t, t.deleteToken)],
                       files := db.files + FileRows(t)))
    else if db.transfers[t.id] != TransferRow(Some(hash), t, t.deleteToken) then Failure(ConflictingTransfer)
    else Success(db)
  }

  function ImportTransfers(env: Env, db: Db, transfers: seq<Transfer>, hash: string): Result<Db, Error> {
    if transfers == [] then Success(db)
    else
      match ImportTransfers(env, db, transfers[..|transfers| - 1], hash)
      case Failure(e) => Failure(e)
      case Success(d) => ImportTransfer(env, d, transfers[|transfers| - 1], hash)
  }

  // ---- Jobs ----

  datatype Entry = Entry(list: SourceList, index: nat, raw: Json)

  function Tagged(list: SourceList, raws: seq<Json>): seq<Entry> {
    seq(|raws|, i requires 0 <= i < |raws| => Entry(list, i, raws[i]))
  }

  /** Every entry of the bundle, in the order of both passes. */
  function Entries(source: Source): seq<Entry> {
    Tagged(Queued, source.queued) + Tagged(Processing, source.processing) + Tagged(Dead, source.dead)
  }

  /** What `importJob` decides about an entry before it touches a table: a job and its file, or a reason. */
  datatype Verdict = Accepted(job: Job, file: SourceFile) | Rejected(reason: string)

  function Judge(env: Env, source: Source, raw: Json): Verdict {
    match ParseJob(env, raw)
    case None => Rejected("invalid_job")
    case Some(job) =>
      match FindTransfer(source.transfers, job.transferId)
      case None => Rejected("missing_transfer")
      case Some(t) =>
        match FindFile(t.files, job.mediaId)
        case None => Rejected("missing_file")
        case Some(f) => if f.storageKey != job.storageKey then Rejected("source_key_mismatch") else Accepted(job, f)
  }

  function StatusOf(f: SourceFile, list: SourceList): JobStatus {
    if f.status == "worker_done" || f.status == "local_done" then Completed
    else if f.status == "failed" || f.status == "skipped" || list.Dead? then DeadJob
    else Pending
  }

  function KeyOf(job: Job): JobKey {
    JobKey(job.transferId, job.mediaId, "process", job.attempt)
  }

  function RowOf(hash: string, e: Entry, job: Job, f: SourceFile): JobRow {
    var attempts := job.delivery + if e.list.Processing? then 1 else 0;
    JobRow(FromEntry(e.raw), job.idempotencyKey, job.body, StatusOf(f, e.list), attempts, Max(5, attempts),
           Some(Origin(hash, e.list, e.index)), Some(e.raw))
  }

  /** A row that the table's other unique constraints forbid beside `row`. */
  predicate Clashes(a: JobRow, b: JobRow) {
    a.id == b.id || a.idempotencyKey == b.idempotencyKey || (a.origin.Some? && a.origin == b.origin)
  }

  predicate SameImport(a: JobRow, b: JobRow) {
    a.idempotencyKey == b.idempotencyKey && a.payload == b.payload && a.origin == b.origin && a.entry == b.entry
  }

  /** Insert if the key is absent; an existing row must be the one this entry made. */
  function PutJob(db: Db, key: JobKey, row: JobRow): Result<Db, Error> {
    if !Int4(key.generation) || !Int4(row.attempts) then Failure(OutOfRange)
    else if key !in db.jobs then
      if (key.transferId, key.fileId) !in db.files || (exists k <- db.jobs :: Clashes(db.jobs[k], row)) then
        Failure(ConstraintViolation)
      else Success(db.(jobs := db.jobs[key := row]))
    else if !SameImport(db.jobs[key], row) then Failure(ConflictingJob)
    else Success(db)
  }

  function PutQuarantine(db: Db, origin: Origin, row: QuarantineRow): Result<Db, Error> {
    if !Int4(origin.index) then Failure(OutOfRange)
    else if origin !in db.quarantine then Success(db.(quarantine := db.quarantine[origin := row]))
    else if db.quarantine[origin] != row then Failure(ConflictingQuarantine)
    else Success(db)
  }

  function OriginOf(source: Source, e: Entry): Origin {
    Origin(source.hash, e.list, e.index)
  }

  function KindOf(v: Verdict): Kind {
    if v.Accepted? then Imported else Quarantined
  }

  function ImportJob(env: Env, source: Source, db: Db, e: Entry): Result<Db, Error> {
    match Judge(env, source, e.raw)
    case Accepted(job, f) => PutJob(db, KeyOf(job), RowOf(source.hash, e, job, f))
    case Rejected(reason) => PutQuarantine(db, OriginOf(source, e), QuarantineRow(e.raw, reason))
  }

  function ImportJobs(env: Env, source: Source, db: Db, entries: seq<Entry>): Result<Db, Error> {
    if entries == [] then Success(db)
    else
      match ImportJobs(env, source, db, entries[..|entries| - 1])
      case Failure(e) => Failure(e)
      case Success(d) => ImportJob(env, source, d, entries[|entries| - 1])
  }

  function CountOf(env: Env, source: Source, entries: seq<Entry>, kind: Kind): nat {
    if entries == [] then 0
    else
      CountOf(env, source, entries[..|entries| - 1], kind)
      + if KindOf(Judge(env, source, entries[|entries| - 1].raw)) == kind then 1 else 0
  }

  // ---- The generation pre-pass ----

  datatype Generation = Generation(transferId: string, fileId: string, generation: int)

  function Joined(transferId: string, fileId: string): string {
    transferId + ":" + fileId
  }

  /** One entry of the pre-pass: an accepted job replaces what is recorded under its key if its attempt is greater. */
  function Record(env: Env, source: Source, prior: map<string, Generation>, raw: Json): map<string, Generation> {
    match Judge(env, source, raw)
    case Rejected(_) => prior
    case Accepted(job, _) =>
      var key := Joined(job.transferId, job.mediaId);
      if key !in prior || job.attempt > prior[key].generation then
        prior[key := Generation(job.transferId, job.mediaId, job.attempt)]
      else prior
  }

  /** `generations` after the given entries. */
  function Generations(env: Env, source: Source, entries: seq<Entry>): map<string, Generation> {
    if entries == [] then map[]
    else Record(env, source, Generations(env, source, entries[..|entries| - 1]), entries[|entries| - 1].raw)
  }

  predicate NamesFile(g: Generation, f: FileKey) {
    (g.transferId, g.fileId) == f
  }

  predicate InRange(generations: map<string, Generation>) {
    forall key <- generations :: Int4(generations[key].generation)
  }

  /** Every update of the pre-pass: `greatest` on the rows the recorded generations name. */
  function Raised(files: map<FileKey, int>, generations: map<string, Generation>): map<FileKey, int> {
    map f | f in files ::
      var key := Joined(f.0, f.1);
      if key in generations && NamesFile(generations[key], f) then Max(files[f], generations[key].generation)
      else files[f]
  }

  // ---- The whole import ----

  datatype Report = Report(db: Db, importedJobs: nat, quarantinedJobs: nat)

  predicate DistinctIds(transfers: seq<Transfer>) {
    forall i, j :: 0 <= i < j < |transfers| ==> transfers[i].id != transfers[j].id
  }

  /** One committed transaction, or the error that rolled it back. */
  function Import(env: Env, source: Source, hash: string, db: Db): Result<Report, Error> {
    if !DistinctIds(source.transfers) || source.hash != hash then Failure(RejectedSource)
    else
      match ImportTransfers(env, db, source.transfers, hash)
      case Failure(e) => Failure(e)
      case Success(d) =>
        var entries := Entries(source);
        var generations := Generations(env, source, entries);
        if !InRange(generations) then Failure(OutOfRange)
        else
          match ImportJobs(env, source, d.(files := Raised(d.files, generations)), entries)
          case Failure(e) => Failure(e)
          case Success(r) =>
            Success(Report(r, CountOf(env, source, entries, Imported), CountOf(env, source, entries, Quarantined)))
  }

  // ---- What a step leaves behind ----

  /** Nothing is overwritten and no generation is lowered. */
  ghost predicate Grows(a: Db, b: Db) {
    && (forall id <- a.transfers :: id in b.transfers && b.transfers[id] == a.transfers[id])
    && (forall f <- a.files :: f in b.files && a.files[f] <= b.files[f])
    && (forall k <- a.jobs :: k in b.jobs && b.jobs[k] == a.jobs[k])
    && (forall o <- a.quarantine :: o in b.quarantine && b.quarantine[o] == a.quarantine[o])
  }

  ghost predicate TransferSettled(env: Env, db: Db, t: Transfer, hash: string) {
    env.acceptable(t) && t.id in db.transfers && db.transfers[t.id] == TransferRow(Some(hash), t, t.deleteToken)
  }

  /** The entry has its job row or its quarantine row. */
  ghost predicate Settled(env: Env, source: Source, db: Db, e: Entry) {
    match Judge(env, source, e.raw)
    case Accepted(job, f) =>
      var row := RowOf(source.hash, e, job, f);
      Int4(job.attempt) && Int4(row.attempts) && KeyOf(job) in db.jobs && SameImport(db.jobs[KeyOf(job)], row)
    case Rejected(reason) =>
      var origin := OriginOf(source, e);
      Int4(e.index) && origin in db.quarantine && db.quarantine[origin] == QuarantineRow(e.raw, reason)
  }

  lemma GrowsTransitive(a: Db, b: Db, c: Db)
    requires Grows(a, b) && Grows(b, c)
    ensures Grows(a, c)
  {}

  lemma TransferSettles(env: Env, db: Db, t: Transfer, hash: string)
    requires ImportTransfer(env, db, t, hash).Success?
    ensures var d := ImportTransfer(env, db, t, hash).value;
      Grows(db, d) && d.jobs == db.jobs && d.quarantine == db.quarantine && TransferSettled(env, d, t, hash)
  {}

  lemma {:induction false} TransfersSettle(env: Env, db: Db, transfers: seq<Transfer>, hash: string)
    requires ImportTransfers(env, db, transfers, hash).Success?
    ensures var d := ImportTransfers(env, db, transfers, hash).value;
      && Grows(db, d) && d.jobs == db.jobs && d.quarantine == db.quarantine
      && forall t <- transfers :: TransferSettled(env, d, t, hash)
  {
    if transfers != [] {
      var front, last := transfers[..|transfers| - 1], transfers[|transfers| - 1];
      TransfersSettle(env, db, front, hash);
      var d := ImportTransfers(env, db, front, hash).value;
      TransferSettles(env, d, last, hash);
      GrowsTransitive(db, d, ImportTransfer(env, d, last, hash).value);
      assert transfers == front + [last];
    }
  }

  lemma {:induction false} SettledTransfersStay(env: Env, db: Db, transfers: seq<Transfer>, hash: string)
    requires forall t <- transfers :: TransferSettled(env, db, t, hash)
    ensures ImportTransfers(env, db, transfers, hash) == Success(db)
  {
    if transfers != [] {
      SettledTransfersStay(env, db, transfers[..|transfers| - 1], hash);
      assert TransferSettled(env, db, transfers[|transfers| - 1], hash);
    }
  }

  lemma PutJobSettles(db: Db, key: JobKey, row: JobRow)
    requires PutJob(db, key, row).Success?
    ensures var d := PutJob(db, key, row).value;
      && Grows(db, d) && d == db.(jobs := d.jobs) && Int4(key.generation) && Int4(row.attempts)
      && key in d.jobs && SameImport(d.jobs[key], row)
  {}

  lemma PutQuarantineSettles(db: Db, origin: Origin, row: QuarantineRow)
    requires PutQuarantine(db, origin, row).Success?
    ensures var d := PutQuarantine(db, origin, row).value;
      && Grows(db, d) && d == db.(quarantine := d.quarantine) && Int4(origin.index)
      && origin in d.quarantine && d.quarantine[origin] == row
  {}

  lemma JobSettles(env: Env, source: Source, db: Db, e: Entry)
    requires ImportJob(env, source, db, e).Success?
    ensures var d := ImportJob(env, source, db, e).value;
      Grows(db, d) && d.files == db.files && d.transfers == db.transfers && Settled(env, source, d, e)
  {
    match Judge(env, source, e.raw)
    case Accepted(job, f) => PutJobSettles(db, KeyOf(job), RowOf(source.hash, e, job, f));
    case Rejected(reason) => PutQuarantineSettles(db, OriginOf(source, e), QuarantineRow(e.raw, reason));
  }

  lemma SettledGrows(env: Env, source: Source, a: Db, b: Db, e: Entry)
    requires Settled(env, source, a, e) && Grows(a, b)
    ensures Settled(env, source, b, e)
  {}

  lemma {:induction false} JobsSettle(env: Env, source: Source, db: Db, entries: seq<Entry>)
    requires ImportJobs(env, source, db, entries).Success?
    ensures var d := ImportJobs(env, source, db, entries).value;
      && Grows(db, d) && d.files == db.files && d.transfers == db.transfers
      && forall e <- entries :: Settled(env, source, d, e)
  {
    if entries != [] {
      var front, last := entries[..|entries| - 1], entries[|entries| - 1];
      JobsSettle(env, source, db, front);
      var d := ImportJobs(env, source, db, front).value;
      var r := ImportJob(env, source, d, last).value;
      JobSettles(env, source, d, last);
      GrowsTransitive(db, d, r);
      assert entries == front + [last];
      forall e | e in front
        ensures Settled(env, source, r, e)
      {
        SettledGrows(env, source, d, r, e);
      }
    }
  }

  lemma {:induction false} SettledJobsStay(env: Env, source: Source, db: Db, entries: seq<Entry>)
    requires forall e <- entries :: Settled(env, source, db, e)
    ensures ImportJobs(env, source, db, entries) == Success(db)
  {
    if entries != [] {
      SettledJobsStay(env, source, db, entries[..|entries| - 1]);
      assert Settled(env, source, db, entries[|entries| - 1]);
    }
  }

  lemma RaisingIsIdempotent(files: map<FileKey, int>, generations: map<string, Generation>)
    ensures Raised(Raised(files, generations), generations) == Raised(files, generations)
  {}

  /** A successful import, taken apart. */
  lemma ImportSettles(env: Env, source: Source, hash: string, db: Db)
    requires Import(env, source, hash, db).Success?
    ensures var r := Import(env, source, hash, db).value.db;
      var generations := Generations(env, source, Entries(source));
      && (forall t <- source.transfers :: TransferSettled(env, r, t, hash))
      && (forall e <- Entries(source) :: Settled(env, source, r, e))
      && r.files == Raised(ImportTransfers(env, db, source.transfers, hash).value.files, generations)
  {
    var d := ImportTransfers(env, db, source.transfers, hash).value;
    var raised := d.(files := Raised(d.files, Generations(env, source, Entries(source))));
    TransfersSettle(env, db, source.transfers, hash);
    JobsSettle(env, source, raised, Entries(source));
    var r := ImportJobs(env, source, raised, Entries(source)).value;
    forall t | t in source.transfers
      ensures TransferSettled(env, r, t, hash)
    {
      assert TransferSettled(env, d, t, hash);
    }
  }

  /** Running the import again after a successful one succeeds, reports the same and changes nothing. */
  lemma ImportIsIdempotent(env: Env, source: Source, hash: string, db: Db)
    requires Import(env, source, hash, db).Success?
    ensures var r := Import(env, source, hash, db).value;
      Import(env, source, hash, r.db) == Success(r)
  {
    var r := Import(env, source, hash, db).value.db;
    ImportSettles(env, source, hash, db);
    SettledTransfersStay(env, r, source.transfers, hash);
    RaisingIsIdempotent(ImportTransfers(env, db, source.transfers, hash).value.files,
                        Generations(env, source, Entries(source)));
    SettledJobsStay(env, source, r, Entries(source));
  }

  // ---- Every entry ends in one place ----

  predicate HasOrigin(db: Db, o: Origin) {
    exists k <- db.jobs :: db.jobs[k].origin == Some(o)
  }

  /** Some entry of this kind has the origin `o`. */
  predicate Comes(env: Env, source: Source, entries: seq<Entry>, kind: Kind, o: Origin) {
    exists e <- entries :: KindOf(Judge(env, source, e.raw)) == kind && OriginOf(source, e) == o
  }

  /** The unique constraints of the jobs table. */
  ghost predicate UniqueRows(db: Db) {
    forall k <- db.jobs, l <- db.jobs :: k != l ==> !Clashes(db.jobs[k], db.jobs[l])
  }

  lemma PutJobOrigins(db: Db, key: JobKey, row: JobRow, o: Origin)
    requires PutJob(db, key, row).Success?
    ensures HasOrigin(PutJob(db, key, row).value, o) <==> HasOrigin(db, o) || row.origin == Some(o)
  {
    var d := PutJob(db, key, row).value;
    PutJobSettles(db, key, row);
    assert d.jobs[key].origin == row.origin;
    if HasOrigin(db, o) {
      var k :| k in db.jobs && db.jobs[k].origin == Some(o);
      assert d.jobs[k].origin == Some(o);
    }
  }

  lemma PutJobUnique(db: Db, key: JobKey, row: JobRow)
    requires PutJob(db, key, row).Success? && UniqueRows(db)
    ensures UniqueRows(PutJob(db, key, row).value)
  {}

  lemma JobOrigins(env: Env, source: Source, db: Db, e: Entry, o: Origin)
    requires ImportJob(env, source, db, e).Success?
    ensures var d := ImportJob(env, source, db, e).value;
      var kind := KindOf(Judge(env, source, e.raw));
      && (HasOrigin(d, o) <==> HasOrigin(db, o) || (kind.Imported? && OriginOf(source, e) == o))
      && (o in d.quarantine <==> o in db.quarantine || (kind.Quarantined? && OriginOf(source, e) == o))
  {
    match Judge(env, source, e.raw)
    case Accepted(job, f) => PutJobOrigins(db, KeyOf(job), RowOf(source.hash, e, job, f), o);
    case Rejected(_) =>
  }

  lemma {:induction false} JobsOrigins(env: Env, source: Source, db: Db, entries: seq<Entry>, o: Origin)
    requires ImportJobs(env, source, db, entries).Success?
    ensures var d := ImportJobs(env, source, db, entries).value;
      && (HasOrigin(d, o) <==> HasOrigin(db, o) || Comes(env, source, entries, Imported, o))
      && (o in d.quarantine <==> o in db.quarantine || Comes(env, source, entries, Quarantined, o))
  {
    if entries != [] {
      var front, last := entries[..|entries| - 1], entries[|entries| - 1];
      JobsOrigins(env, source, db, front, o);
      JobOrigins(env, source, ImportJobs(env, source, db, front).value, last, o);
      assert entries == front + [last];
    }
  }

  lemma {:induction false} JobsUnique(env: Env, source: Source, db: Db, entries: seq<Entry>)
    requires ImportJobs(env, source, db, entries).Success? && UniqueRows(db)
    ensures UniqueRows(ImportJobs(env, source, db, entries).value)
  {
    if entries != [] {
      var front, last := entries[..|entries| - 1], entries[|entries| - 1];
      JobsUnique(env, source, db, front);
      match Judge(env, source, last.raw)
      case Accepted(job, f) =>
        PutJobUnique(ImportJobs(env, source, db, front).value, KeyOf(job), RowOf(source.hash, last, job, f));
      case Rejected(_) =>
    }
  }

  lemma {:induction false} CountsSum(env: Env, source: Source, entries: seq<Entry>)
    ensures CountOf(env, source, entries, Imported) + CountOf(env, source, entries, Quarantined) == |entries|
  {
    if entries != [] {
      CountsSum(env, source, entries[..|entries| - 1]);
    }
  }

  /**
   * After a successful import every entry is exactly where its verdict puts it:
   * its origin has one job row if the job was accepted, a quarantine row if it
   * was not, beside what was there before; the two counts sum to the entries.
   */
  lemma EntriesAreConserved(env: Env, source: Source, hash: string, db: Db)
    requires Import(env, source, hash, db).Success? && UniqueRows(db)
    ensures var r := Import(env, source, hash, db).value;
      && r.importedJobs + r.quarantinedJobs == |source.queued| + |source.processing| + |source.dead|
      && (forall o :: HasOrigin(r.db, o) <==> HasOrigin(db, o) || Comes(env, source, Entries(source), Imported, o))
      && (forall o :: o in r.db.quarantine
            <==> o in db.quarantine || Comes(env, source, Entries(source), Quarantined, o))
      && (forall k <- r.db.jobs, l <- r.db.jobs ::
            r.db.jobs[k].origin.Some? && r.db.jobs[k].origin == r.db.jobs[l].origin ==> k == l)
  {
    var d := ImportTransfers(env, db, source.transfers, hash).value;
    var raised := d.(files := Raised(d.files, Generations(env, source, Entries(source))));
    var r := ImportJobs(env, source, raised, Entries(source)).value;
    TransfersSettle(env, db, source.transfers, hash);
    CountsSum(env, source, Entries(source));
    forall o
      ensures HasOrigin(r, o) <==> HasOrigin(db, o) || Comes(env, source, Entries(source), Imported, o)
      ensures o in r.quarantine <==> o in db.quarantine || Comes(env, source, Entries(source), Quarantined, o)
    {
      JobsOrigins(env, source, raised, Entries(source), o);
      assert HasOrigin(raised, o) <==> HasOrigin(db, o);
    }
    assert UniqueRows(raised);
    JobsUnique(env, source, raised, Entries(source));
    forall k, l | k in r.jobs && l in r.jobs && r.jobs[k].origin.Some? && r.jobs[k].origin == r.jobs[l].origin
      ensures k == l
    {
      assert Clashes(r.jobs[k], r.jobs[l]);
    }
  }

  // ---- A first import adds as many rows as it reports ----

  ghost predicate DistinctOrigins(entries: seq<Entry>) {
    forall i, j :: 0 <= i < j < |entries| ==> (entries[i].list, entries[i].index) != (entries[j].list, entries[j].index)
  }

  /** No row of an earlier import stands where these entries go. */
  ghost predicate Unused(source: Source, db: Db, entries: seq<Entry>) {
    forall e <- entries :: !HasOrigin(db, OriginOf(source, e)) && OriginOf(source, e) !in db.quarantine
  }

  lemma PutJobAdds(db: Db, key: JobKey, row: JobRow)
    requires PutJob(db, key, row).Success? && row.origin.Some? && !HasOrigin(db, row.origin.value)
    ensures |PutJob(db, key, row).value.jobs| == |db.jobs| + 1
  {
    if key !in db.jobs {
      assert db.jobs[key := row].Keys == db.jobs.Keys + {key};
    }
  }

  lemma PutQuarantineAdds(db: Db, o: Origin, row: QuarantineRow)
    requires PutQuarantine(db, o, row).Success? && o !in db.quarantine
    ensures |PutQuarantine(db, o, row).value.quarantine| == |db.quarantine| + 1
  {
    assert db.quarantine[o := row].Keys == db.quarantine.Keys + {o};
  }

  lemma LastIsNew(env: Env, source: Source, entries: seq<Entry>, kind: Kind)
    requires entries != [] && DistinctOrigins(entries)
    ensures !Comes(env, source, entries[..|entries| - 1], kind, OriginOf(source, entries[|entries| - 1]))
  {
    forall e | e in entries[..|entries| - 1]
      ensures OriginOf(source, e) != OriginOf(source, entries[|entries| - 1])
    {
      var i :| 0 <= i < |entries| - 1 && entries[i] == e;
    }
  }

  lemma {:induction false} JobsAdd(env: Env, source: Source, db: Db, entries: seq<Entry>)
    requires ImportJobs(env, source, db, entries).Success?
    requires DistinctOrigins(entries) && Unused(source, db, entries)
    ensures var d := ImportJobs(env, source, db, entries).value;
      && |d.jobs| == |db.jobs| + CountOf(env, source, entries, Imported)
      && |d.quarantine| == |db.quarantine| + CountOf(env, source, entries, Quarantined)
  {
    if entries != [] {
      var front, last := entries[..|entries| - 1], entries[|entries| - 1];
      JobsAdd(env, source, db, front);
      var d := ImportJobs(env, source, db, front).value;
      var o := OriginOf(source, last);
      assert last in entries;
      JobsOrigins(env, source, db, front, o);
      LastIsNew(env, source, entries, Imported);
      LastIsNew(env, source, entries, Quarantined);
      match Judge(env, source, last.raw)
      case Accepted(job, f) => PutJobAdds(d, KeyOf(job), RowOf(source.hash, last, job, f));
      case Rejected(reason) => PutQuarantineAdds(d, o, QuarantineRow(last.raw, reason));
    }
  }

  lemma EntriesAreDistinct(source: Source)
    ensures DistinctOrigins(Entries(source))
  {}

  /** The first import of a bundle adds exactly as many rows as it reports, and every entry has its own. */
  lemma FirstImportAddsItsCounts(env: Env, source: Source, hash: string, db: Db)
    requires Import(env, source, hash, db).Success? && Unused(source, db, Entries(source))
    ensures var r := Import(env, source, hash, db).value;
      |r.db.jobs| == |db.jobs| + r.importedJobs && |r.db.quarantine| == |db.quarantine| + r.quarantinedJobs
  {
    var d := ImportTransfers(env, db, source.transfers, hash).value;
    var raised := d.(files := Raised(d.files, Generations(env, source, Entries(source))));
    TransfersSettle(env, db, source.transfers, hash);
    EntriesAreDistinct(source);
    assert Unused(source, raised, Entries(source));
    JobsAdd(env, source, raised, Entries(source));
  }

  // ---- Generations ----

  predicate IsJobFor(env: Env, source: Source, e: Entry, f: FileKey) {
    var v := Judge(env, source, e.raw);
    v.Accepted? && (v.job.transferId, v.job.mediaId) == f
  }

  /** The greatest of `prior` and the generations of the jobs imported for `f`. */
  function Greatest(env: Env, source: Source, entries: seq<Entry>, f: FileKey, prior: int): int {
    if entries == [] then prior
    else
      var rest := Greatest(env, source, entries[..|entries| - 1], f, prior);
      var last := entries[|entries| - 1];
      if IsJobFor(env, source, last, f) then Max(rest, Judge(env, source, last.raw).job.attempt) else rest
  }

  lemma {:induction false} GreatestIsMaximum(env: Env, source: Source, entries: seq<Entry>, f: FileKey, prior: int)
    ensures var g := Greatest(env, source, entries, f, prior);
      && prior <= g
      && (forall e <- entries :: IsJobFor(env, source, e, f) ==> Judge(env, source, e.raw).job.attempt <= g)
      && (g == prior
          || exists e <- entries :: IsJobFor(env, source, e, f) && Judge(env, source, e.raw).job.attempt == g)
  {
    if entries != [] {
      GreatestIsMaximum(env, source, entries[..|entries| - 1], f, prior);
      assert entries == entries[..|entries| - 1] + [entries[|entries| - 1]];
    }
  }

  /** What is recorded under a file's joined key bounds its jobs, and is one of them if it names the file. */
  lemma {:induction false} GenerationsAreGreatest(env: Env, source: Source, entries: seq<Entry>, f: FileKey, prior: int)
    ensures var g := Generations(env, source, entries);
      var key := Joined(f.0, f.1);
      var greatest := Greatest(env, source, entries, f, prior);
      && (key in g ==> greatest <= Max(prior, g[key].generation))
      && (key in g && NamesFile(g[key], f) ==> greatest == Max(prior, g[key].generation))
      && (key !in g ==> greatest == prior)
      && prior <= greatest
  {
    if entries != [] {
      GenerationsAreGreatest(env, source, entries[..|entries| - 1], f, prior);
    }
  }

  /** No other file's job stands under the joined key of `f`. */
  predicate OwnsItsKey(generations: map<string, Generation>, f: FileKey) {
    Joined(f.0, f.1) in generations && NamesFile(generations[Joined(f.0, f.1)], f)
  }

  /**
   * After a successful import the generation of a file is the greatest of its
   * prior value and the generations of all jobs imported for it, if and only if
   * its prior value is that already, or its own job won its joined key.
   */
  lemma FileGenerations(env: Env, source: Source, hash: string, db: Db, f: FileKey)
    requires Import(env, source, hash, db).Success?
    ensures var before := ImportTransfers(env, db, source.transfers, hash).value.files;
      var after := Import(env, source, hash, db).value.db.files;
      && (f in after <==> f in before)
      && (f in before ==>
            var greatest := Greatest(env, source, Entries(source), f, before[f]);
            after[f] == greatest
            <==> (greatest == before[f] || OwnsItsKey(Generations(env, source, Entries(source)), f)))
  {
    ImportSettles(env, source, hash, db);
    var before := ImportTransfers(env, db, source.transfers, hash).value.files;
    if f in before {
      GenerationsAreGreatest(env, source, Entries(source), f, before[f]);
    }
  }

  predicate NoColon(id: string) {
    ':' !in id
  }

  /** Without colons in the first parts, the joined key tells files apart. */
  lemma JoinedIsInjective(a: FileKey, b: FileKey)
    requires NoColon(a.0) && NoColon(b.0) && Joined(a.0, a.1) == Joined(b.0, b.1)
    ensures a == b
  {
    var j := Joined(a.0, a.1);
    assert j[|a.0|] == ':' && j[|b.0|] == ':';
    assert a.0 == j[..|a.0|] && a.1 == j[|a.0| + 1..];
    assert b.0 == j[..|b.0|] && b.1 == j[|b.0| + 1..];
  }

  lemma {:induction false} AcceptedInSource(env: Env, source: Source, raw: Json)
    ensures Judge(env, source, raw).Accepted? ==>
              exists t <- source.transfers :: t.id == Judge(env, source, raw).job.transferId
  {
    var job := ParseJob(env, raw);
    if job.Some? {
      FoundTransfer(source.transfers, job.value.transferId);
    }
  }

  lemma {:induction false} FoundTransfer(transfers: seq<Transfer>, id: string)
    ensures FindTransfer(transfers, id).Some? ==>
      exists t <- transfers :: t.id == id && FindTransfer(transfers, id) == Some(t)
  {
    if transfers != [] {
      FoundTransfer(transfers[1..], id);
    }
  }

  lemma {:induction false} WinnerIsOwn(env: Env, source: Source, entries: seq<Entry>, f: FileKey)
    requires forall t <- source.transfers :: NoColon(t.id)
    requires NoColon(f.0)
    ensures var g := Generations(env, source, entries);
      Joined(f.0, f.1) in g ==> NamesFile(g[Joined(f.0, f.1)], f)
  {
    if entries != [] {
      var last := entries[|entries| - 1];
      WinnerIsOwn(env, source, entries[..|entries| - 1], f);
      AcceptedInSource(env, source, last.raw);
      var v := Judge(env, source, last.raw);
      if v.Accepted? && Joined(v.job.transferId, v.job.mediaId) == Joined(f.0, f.1) {
        JoinedIsInjective((v.job.transferId, v.job.mediaId), f);
      }
    }
  }

  /** The extractor admits no colon in a transfer id: then every file's generation is right. */
  lemma GenerationsAreRight(env: Env, source: Source, hash: string, db: Db, f: FileKey)
    requires Import(env, source, hash, db).Success? && f in Import(env, source, hash, db).value.db.files
    requires (forall t <- source.transfers :: NoColon(t.id)) && NoColon(f.0)
    ensures f in ImportTransfers(env, db, source.transfers, hash).value.files
    ensures var prior := ImportTransfers(env, db, source.transfers, hash).value.files[f];
      Import(env, source, hash, db).value.db.files[f] == Greatest(env, source, Entries(source), f, prior)
  {
    FileGenerations(env, source, hash, db, f);
    var prior := ImportTransfers(env, db, source.transfers, hash).value.files[f];
    GenerationsAreGreatest(env, source, Entries(source), f, prior);
    WinnerIsOwn(env, source, Entries(source), f);
  }

  // ---- With colons it can go wrong ----

  function PlainJob(transferId: string, mediaId: string, attempt: int): Json {
    Obj(map["transferId" := Str(transferId), "mediaId" := Str(mediaId), "storageKey" := Str("k"),
            "mimeType" := Str("m"), "processingRoute" := Str("local_image"), "idempotencyKey" := Str(transferId),
            "enqueuedAt" := Str("d"), "attempt" := Num(attempt as real), "file" := Obj(map["name" := Str("n")])])
  }

  function PlainTransfer(id: string, fileId: string): Transfer {
    Transfer(id, "token", [SourceFile(fileId, "k", "pending")], "")
  }

  const COLLIDING := Source("h", [PlainTransfer("a:b", "c"), PlainTransfer("a", "b:c")],
                            [PlainJob("a:b", "c", 3), PlainJob("a", "b:c", 2)], [], [])

  lemma PlainJobParses(env: Env, transferId: string, mediaId: string, attempt: int)
    requires env.isDate("d") && mediaId != "" && transferId != "" && attempt >= 1
    ensures ParseJob(env, PlainJob(transferId, mediaId, attempt))
            == Some(Job(transferId, mediaId, "k", transferId, attempt, 0, PlainJob(transferId, mediaId, attempt)))
  {}

  const FIRST_FILE: FileKey := ("a:b", "c")

  const SECOND_FILE: FileKey := ("a", "b:c")

  lemma CollidingEntries()
    ensures Entries(COLLIDING) == [Entry(Queued, 0, COLLIDING.queued[0]), Entry(Queued, 1, COLLIDING.queued[1])]
    ensures Joined(FIRST_FILE.0, FIRST_FILE.1) == Joined(SECOND_FILE.0, SECOND_FILE.1) && FIRST_FILE != SECOND_FILE
  {}

  lemma CollidingVerdicts(env: Env)
    requires env.isDate("d")
    ensures var a, b := Entry(Queued, 0, COLLIDING.queued[0]), Entry(Queued, 1, COLLIDING.queued[1]);
      && IsJobFor(env, COLLIDING, a, FIRST_FILE) && Judge(env, COLLIDING, a.raw).job.attempt == 3
      && IsJobFor(env, COLLIDING, b, SECOND_FILE) && Judge(env, COLLIDING, b.raw).job.attempt == 2
  {
    PlainJobParses(env, "a:b", "c", 3);
    PlainJobParses(env, "a", "b:c", 2);
    assert FindTransfer(COLLIDING.transfers, "a:b") == Some(COLLIDING.transfers[0]);
    assert FindTransfer(COLLIDING.transfers, "a") == Some(COLLIDING.transfers[1]);
  }

  /** Of two accepted jobs under one joined key, the one with the smaller attempt is not recorded. */
  lemma SmallerJobIsLost(env: Env, source: Source, a: Entry, b: Entry, f: FileKey, g: FileKey, prior: int)
    requires IsJobFor(env, source, a, f) && IsJobFor(env, source, b, g) && f != g
    requires Joined(f.0, f.1) == Joined(g.0, g.1)
    requires Judge(env, source, b.raw).job.attempt <= Judge(env, source, a.raw).job.attempt
    ensures Generations(env, source, [a, b])
            == map[Joined(f.0, f.1) := Generation(f.0, f.1, Judge(env, source, a.raw).job.attempt)]
    ensures !OwnsItsKey(Generations(env, source, [a, b]), g)
    ensures Greatest(env, source, [a, b], g, prior) == Max(prior, Judge(env, source, b.raw).job.attempt)
  {
    assert [a, b][..1] == [a] && [a][..0] == [];
    assert Generations(env, source, [a])
           == map[Joined(f.0, f.1) := Generation(f.0, f.1, Judge(env, source, a.raw).job.attempt)];
    assert Greatest(env, source, [a], g, prior) == prior;
  }

  /** Two new transfers are inserted with their file rows. */
  lemma TwoTransfersImport(env: Env, db: Db, a: Transfer, b: Transfer, hash: string)
    requires db.transfers == map[] && db.files == map[] && a.id != b.id && env.acceptable(a) && env.acceptable(b)
    requires DistinctFileIds(a.files) && DistinctFileIds(b.files)
    ensures ImportTransfers(env, db, [a, b], hash).Success?
    ensures var d := ImportTransfers(env, db, [a, b], hash).value;
      d.files == FileRows(a) + FileRows(b) && d.jobs == db.jobs && d.quarantine == db.quarantine
  {
    assert [a, b][..1] == [a] && [a][..0] == [];
    var d := ImportTransfer(env, db, a, hash).value;
    assert ImportTransfers(env, db, [a], hash) == Success(d) && d.files == FileRows(a);
    assert forall f <- b.files :: (b.id, f.id) !in d.files;
  }

  /** Two accepted jobs with nothing in common are inserted beside each other. */
  lemma TwoJobsImport(env: Env, source: Source, db: Db, a: Entry, b: Entry, f: FileKey, g: FileKey)
    requires db.jobs == map[] && f in db.files && g in db.files && f != g
    requires IsJobFor(env, source, a, f) && IsJobFor(env, source, b, g)
    requires var v, w := Judge(env, source, a.raw), Judge(env, source, b.raw);
      var rowA, rowB := RowOf(source.hash, a, v.job, v.file), RowOf(source.hash, b, w.job, w.file);
      && Int4(v.job.attempt) && Int4(w.job.attempt)
      && Int4(rowA.attempts) && Int4(rowB.attempts) && !Clashes(rowA, rowB)
    ensures ImportJobs(env, source, db, [a, b]).Success?
  {
    assert [a, b][..1] == [a] && [a][..0] == [];
    var v := Judge(env, source, a.raw);
    var d := db.(jobs := map[KeyOf(v.job) := RowOf(source.hash, a, v.job, v.file)]);
    assert ImportJob(env, source, db, a) == Success(d);
    assert ImportJobs(env, source, db, [a]) == Success(d);
  }

  /** The three parts of a successful import. */
  lemma ImportSucceeds(env: Env, source: Source, db: Db)
    requires DistinctIds(source.transfers) && ImportTransfers(env, db, source.transfers, source.hash).Success?
    requires InRange(Generations(env, source, Entries(source)))
    requires var d := ImportTransfers(env, db, source.transfers, source.hash).value;
      ImportJobs(env, source, d.(files := Raised(d.files, Generations(env, source, Entries(source)))),
                 Entries(source)).Success?
    ensures Import(env, source, source.hash, db).Success?
  {}

  /**
   * Every bundle of two accepted jobs for two files under one joined key, into
   * new file rows: it is imported, and the file whose job has the smaller
   * attempt keeps the generation it started with.
   */
  lemma SharedKeyLosesAGeneration(env: Env, source: Source, db: Db, a: Entry, b: Entry, f: FileKey, g: FileKey)
    requires DistinctIds(source.transfers) && Entries(source) == [a, b]
    requires ImportTransfers(env, db, source.transfers, source.hash).Success?
    requires var d := ImportTransfers(env, db, source.transfers, source.hash).value;
      d.files == map[f := 1, g := 1] && d.jobs == map[]
    requires IsJobFor(env, source, a, f) && IsJobFor(env, source, b, g) && f != g
    requires Joined(f.0, f.1) == Joined(g.0, g.1)
    requires var v, w := Judge(env, source, a.raw), Judge(env, source, b.raw);
      var rowA, rowB := RowOf(source.hash, a, v.job, v.file), RowOf(source.hash, b, w.job, w.file);
      && w.job.attempt <= v.job.attempt && Int4(v.job.attempt) && Int4(w.job.attempt)
      && Int4(rowA.attempts) && Int4(rowB.attempts) && !Clashes(rowA, rowB)
    ensures Import(env, source, source.hash, db).Success?
    ensures var files := Import(env, source, source.hash, db).value.db.files;
      g in files && files[g] == 1
    ensures Greatest(env, source, Entries(source), g, 1) == Max(1, Judge(env, source, b.raw).job.attempt)
  {
    var d := ImportTransfers(env, db, source.transfers, source.hash).value;
    SmallerJobIsLost(env, source, a, b, f, g, 1);
    var raised := d.(files := Raised(d.files, Generations(env, source, [a, b])));
    TwoJobsImport(env, source, raised, a, b, f, g);
    ImportSucceeds(env, source, db);
    ImportSettles(env, source, source.hash, db);
  }

  /** The two file rows the bundle's transfers come with. */
  lemma CollidingTransfers(env: Env)
    requires env.acceptable(COLLIDING.transfers[0]) && env.acceptable(COLLIDING.transfers[1])
    ensures var d := ImportTransfers(env, Db(map[], map[], map[], map[]), COLLIDING.transfers, COLLIDING.hash);
      d.Success? && d.value.files == map[FIRST_FILE := 1, SECOND_FILE := 1] && d.value.jobs == map[]
  {
    var a, b := COLLIDING.transfers[0], COLLIDING.transfers[1];
    TwoTransfersImport(env, Db(map[], map[], map[], map[]), a, b, COLLIDING.hash);
    assert COLLIDING.transfers == [a, b];
    assert FileKeys(a) == {FIRST_FILE} && FileKeys(b) == {SECOND_FILE};
  }

  /** The rows of the two jobs share no unique column. */
  lemma CollidingRows(env: Env)
    requires env.isDate("d")
    ensures var a, b := Entry(Queued, 0, COLLIDING.queued[0]), Entry(Queued, 1, COLLIDING.queued[1]);
      var v, w := Judge(env, COLLIDING, a.raw), Judge(env, COLLIDING, b.raw);
      && v.Accepted? && w.Accepted?
      && var rowA, rowB := RowOf(COLLIDING.hash, a, v.job, v.file), RowOf(COLLIDING.hash, b, w.job, w.file);
         Int4(rowA.attempts) && Int4(rowB.attempts) && !Clashes(rowA, rowB)
  {
    CollidingVerdicts(env);
    PlainJobParses(env, "a:b", "c", 3);
    PlainJobParses(env, "a", "b:c", 2);
  }

  /**
   * With a colon it goes wrong: this bundle is imported into an empty database
   * with a job of generation 2 for the second transfer's file, whose stored
   * generation is then 1.
   */
  lemma ColonsLoseAGeneration(env: Env)
    requires env.isDate("d") && env.acceptable(COLLIDING.transfers[0]) && env.acceptable(COLLIDING.transfers[1])
    ensures var r := Import(env, COLLIDING, COLLIDING.hash, Db(map[], map[], map[], map[]));
      r.Success? && SECOND_FILE in r.value.db.files && r.value.db.files[SECOND_FILE] == 1
    ensures Greatest(env, COLLIDING, Entries(COLLIDING), SECOND_FILE, 1) == 2
  {
    var a, b := Entry(Queued, 0, COLLIDING.queued[0]), Entry(Queued, 1, COLLIDING.queued[1]);
    CollidingVerdicts(env);
    CollidingEntries();
    CollidingTransfers(env);
    CollidingRows(env);
    SharedKeyLosesAGeneration(env, COLLIDING, Db(map[], map[], map[], map[]), a, b, FIRST_FILE, SECOND_FILE);
  }
}
