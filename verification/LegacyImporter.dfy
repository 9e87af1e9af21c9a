/**
 * The loops of ops/import-legacy-transfers.ts, with the database as a field
 * they update row by row; `RunImport` is the one transaction and rolls it back.
 */
module LegacyImporter {
  import opened Basics
  import L = LegacyImport
  import R = LegacyRows

  type Error = L.Error

  /** The entries of one list stand in `all` from index `first` on. */
  ghost predicate ListAt(all: seq<L.Entry>, first: nat, list: L.SourceList, raws: seq<L.Json>) {
    && first + |raws| <= |all|
    && forall k :: 0 <= k < |raws| ==> all[first + k] == L.Entry(list, k, raws[k])
  }

  /** The order in which both passes take the lists. */
  function ListNo(k: nat): L.SourceList {
    if k == 0 then L.Queued else if k == 1 then L.Processing else L.Dead
  }

  function RawsOf(source: L.Source, list: L.SourceList): seq<L.Json> {
    match list
    case Queued => source.queued
    case Processing => source.processing
    case Dead => source.dead
  }

  /** Where the k-th list begins among all entries. */
  function FirstOf(source: L.Source, k: nat): nat {
    if k == 0 then 0
    else if k == 1 then |source.queued|
    else if k == 2 then |source.queued| + |source.processing|
    else |source.queued| + |source.processing| + |source.dead|
  }

  ghost predicate ListIs(all: seq<L.Entry>, source: L.Source, k: nat) {
    ListAt(all, FirstOf(source, k), ListNo(k), RawsOf(source, ListNo(k)))
  }

  /** `all` is the three lists of the bundle in turn. */
  ghost predicate ListsAre(all: seq<L.Entry>, source: L.Source) {
    |all| == FirstOf(source, 3) && forall k: nat :: k < 3 ==> ListIs(all, source, k)
  }

  lemma EntriesAreTheLists(source: L.Source)
    ensures ListsAre(L.Entries(source), source)
  {
    assert ListIs(L.Entries(source), source, 0);
    assert ListIs(L.Entries(source), source, 1);
    assert ListIs(L.Entries(source), source, 2);
  }

  /** Every generation stands under the joined key of the file it names. */
  ghost predicate WellKeyed(generations: map<string, L.Generation>) {
    forall key <- generations :: key == L.Joined(generations[key].transferId, generations[key].fileId)
  }

  lemma {:induction false} GenerationsAreWellKeyed(env: L.Env, source: L.Source, entries: seq<L.Entry>)
    ensures WellKeyed(L.Generations(env, source, entries))
  {
    if entries != [] {
      GenerationsAreWellKeyed(env, source, entries[..|entries| - 1]);
    }
  }

  /** The rows already raised: those named under one of the keys done. */
  ghost predicate PartlyRaised(files: map<L.FileKey, int>, generations: map<string, L.Generation>, done: set<string>,
                               now: map<L.FileKey, int>) {
    && now.Keys == files.Keys
    && forall f <- files ::
         now[f] == if L.Joined(f.0, f.1) in done then L.Raised(files, generations)[f] else files[f]
  }

  class Importer {
    const env: L.Env
    var db: L.Db

    method ImportTransfer(t: L.Transfer, hash: string) returns (error: Option<Error>)
      modifies this
      ensures L.ImportTransfer(env, old(db), t, hash) == if error.None? then Success(db) else Failure(error.value)
    {
      if !env.acceptable(t) {
        return Some(L.RejectedTransfer);
      }
      if t.id !in db.transfers {
        if !L.DistinctFileIds(t.files) || (exists f <- t.files :: (t.id, f.id) in db.files) {
          return Some(L.ConstraintViolation);
        }
        db := db.(transfers := db.transfers[t.id := L.TransferRow(Some(hash), t, t.deleteToken)],
                  files := db.files + L.FileRows(t));
        return None;
      }
      var found := db.transfers[t.id];
      if found.source != Some(hash) || found.payload != t || found.token != t.deleteToken {
        return Some(L.ConflictingTransfer);
      }
      return None;
    }

    method ImportTransfers(transfers: seq<L.Transfer>, hash: string) returns (error: Option<Error>)
      modifies this
      ensures error.None? ==> L.ImportTransfers(env, old(db), transfers, hash) == Success(db)
      ensures error.Some? ==> L.ImportTransfers(env, old(db), transfers, hash) == Failure(error.value)
    {
      error := None;
      for i := 0 to |transfers|
        invariant L.ImportTransfers(env, old(db), transfers[..i], hash) == Success(db)
      {
        assert transfers[..i + 1][..i] == transfers[..i];
        error := ImportTransfer(transfers[i], hash);
        if error.Some? {
          FailureStays(old(db), transfers, i + 1, hash);
          return;
        }
      }
      assert transfers[..|transfers|] == transfers;
      error := None;
    }

    lemma {:induction false} FailureStays(start: L.Db, transfers: seq<L.Transfer>, i: nat, hash: string)
      requires i <= |transfers| && L.ImportTransfers(env, start, transfers[..i], hash).Failure?
      ensures L.ImportTransfers(env, start, transfers, hash) == L.ImportTransfers(env, start, transfers[..i], hash)
      decreases |transfers|
    {
      if i == |transfers| {
        assert transfers[..i] == transfers;
      } else {
        assert transfers[..|transfers| - 1][..i] == transfers[..i];
        FailureStays(start, transfers[..|transfers| - 1], i, hash);
      }
    }

    /** One entry of the pre-pass.  It looks the entry up on its own, and agrees with what `importJob` accepts. */
    method RecordGeneration(source: L.Source, raw: L.Json, recorded: map<string, L.Generation>)
      returns (generations: map<string, L.Generation>)
      ensures generations == L.Record(env, source, recorded, raw)
    {
      generations := recorded;
      var job := L.ParseJob(env, raw);
      if job.None? || job.value.mediaId == "" {
        return;
      }
      var transfer := L.FindTransfer(source.transfers, job.value.transferId);
      var file := if transfer.Some? then L.FindFile(transfer.value.files, job.value.mediaId) else None;
      if file.None? || file.value.storageKey != job.value.storageKey {
        return;
      }
      var key := L.Joined(job.value.transferId, job.value.mediaId);
      if key !in generations || job.value.attempt > generations[key].generation {
        generations := generations[key := L.Generation(job.value.transferId, job.value.mediaId, job.value.attempt)];
      }
    }

    /** One list of the pre-pass. */
    method RecordGenerations(source: L.Source, list: L.SourceList, raws: seq<L.Json>,
                             recorded: map<string, L.Generation>,
                             ghost all: seq<L.Entry>, ghost first: nat)
      returns (generations: map<string, L.Generation>)
      requires ListAt(all, first, list, raws)
      requires recorded == L.Generations(env, source, all[..first])
      ensures generations == L.Generations(env, source, all[..first + |raws|])
    {
      generations := recorded;
      for k := 0 to |raws|
        invariant generations == L.Generations(env, source, all[..first + k])
      {
        assert all[..first + k + 1][..first + k] == all[..first + k];
        generations := RecordGeneration(source, raws[k], generations);
      }
    }

    /** One update for each recorded generation, in any order; a value that is no `integer` fails. */
    method UpdateGenerations(generations: map<string, L.Generation>) returns (error: Option<Error>)
      requires WellKeyed(generations)
      modifies this
      ensures error.None? <==> L.InRange(generations)
      ensures error.Some? ==> error.value == L.OutOfRange
      ensures error.None? ==> db == old(db).(files := L.Raised(old(db).files, generations))
    {
      var todo := generations.Keys;
      ghost var files := db.files;
      while todo != {}
        invariant todo <= generations.Keys
        invariant forall key <- generations.Keys - todo :: L.Int4(generations[key].generation)
        invariant db == old(db).(files := db.files)
        invariant PartlyRaised(files, generations, generations.Keys - todo, db.files)
        decreases todo
      {
        var key :| key in todo;
        var g := generations[key];
        if !L.Int4(g.generation) {
          return Some(L.OutOfRange);
        }
        ghost var before := db.files;
        var f: L.FileKey := (g.transferId, g.fileId);
        if f in db.files {
          db := db.(files := db.files[f := Max(db.files[f], g.generation)]);
        }
        OneMoreRaised(files, generations, generations.Keys - todo, key, before, db.files);
        assert generations.Keys - (todo - {key}) == (generations.Keys - todo) + {key};
        todo := todo - {key};
      }
      assert db.files == L.Raised(files, generations);
      return None;
    }

    lemma OneMoreRaised(files: map<L.FileKey, int>, generations: map<string, L.Generation>, done: set<string>,
                        key: string,
                        before: map<L.FileKey, int>, after: map<L.FileKey, int>)
      requires WellKeyed(generations) && key in generations && key !in done
      requires PartlyRaised(files, generations, done, before)
      requires var g := generations[key];
        var f: L.FileKey := (g.transferId, g.fileId);
        after == if f in before then before[f := Max(before[f], g.generation)] else before
      ensures PartlyRaised(files, generations, done + {key}, after)
    {
      var g := generations[key];
      forall f | f in files && L.Joined(f.0, f.1) == key && f != (g.transferId, g.fileId)
        ensures L.Raised(files, generations)[f] == files[f]
      {
        assert !L.NamesFile(g, f);
      }
    }

    method PutQuarantine(origin: L.Origin, row: L.QuarantineRow) returns (error: Option<Error>)
      modifies this
      ensures L.PutQuarantine(old(db), origin, row) == if error.None? then Success(db) else Failure(error.value)
    {
      if !L.Int4(origin.index) {
        return Some(L.OutOfRange);
      }
      if origin !in db.quarantine {
        db := db.(quarantine := db.quarantine[origin := row]);
        return None;
      }
      var existing := db.quarantine[origin];
      return if existing.entry != row.entry || existing.reason != row.reason
        then Some(L.ConflictingQuarantine) else None;
    }

    method PutJob(key: L.JobKey, row: L.JobRow) returns (error: Option<Error>)
      modifies this
      ensures L.PutJob(old(db), key, row) == if error.None? then Success(db) else Failure(error.value)
    {
      if !L.Int4(key.generation) || !L.Int4(row.attempts) {
        return Some(L.OutOfRange);
      }
      if key !in db.jobs {
        if (key.transferId, key.fileId) !in db.files || (exists k <- db.jobs :: L.Clashes(db.jobs[k], row)) {
          return Some(L.ConstraintViolation);
        }
        db := db.(jobs := db.jobs[key := row]);
        return None;
      }
      return if L.SameImport(db.jobs[key], row) then None else Some(L.ConflictingJob);
    }

    method ImportJob(source: L.Source, list: L.SourceList, index: nat, raw: L.Json)
      returns (error: Option<Error>, kind: L.Kind)
      modifies this
      ensures L.ImportJob(env, source, old(db), L.Entry(list, index, raw))
              == if error.None? then Success(db) else Failure(error.value)
      ensures kind == L.KindOf(L.Judge(env, source, raw))
      ensures L.DistinctIds(source.transfers) && !L.HasOrigin(old(db), L.Origin(source.hash, list, index)) ==>
        error.None? ==> R.HasItsRow(env, source, db, source.hash, L.Entry(list, index, raw))
    {
      ghost var before := db;
      FirstRowFits(source, L.Entry(list, index, raw), before);
      var origin := L.Origin(source.hash, list, index);
      kind := L.Quarantined;
      var job := L.ParseJob(env, raw);
      if job.None? {
        error := PutQuarantine(origin, L.QuarantineRow(raw, "invalid_job"));
        return;
      }
      var transfer := L.FindTransfer(source.transfers, job.value.transferId);
      if transfer.None? {
        error := PutQuarantine(origin, L.QuarantineRow(raw, "missing_transfer"));
        return;
      }
      var file := L.FindFile(transfer.value.files, job.value.mediaId);
      if file.None? {
        error := PutQuarantine(origin, L.QuarantineRow(raw, "missing_file"));
        return;
      }
      if file.value.storageKey != job.value.storageKey {
        error := PutQuarantine(origin, L.QuarantineRow(raw, "source_key_mismatch"));
        return;
      }
      kind := L.Imported;
      var attempts := job.value.delivery + if list.Processing? then 1 else 0;
      var completed := file.value.status == "worker_done" || file.value.status == "local_done";
      var terminal := file.value.status == "failed" || file.value.status == "skipped";
      var status := if completed then L.Completed else if terminal || list.Dead? then L.DeadJob else L.Pending;
      error := PutJob(L.JobKey(job.value.transferId, job.value.mediaId, "process", job.value.attempt),
                      L.JobRow(L.FromEntry(raw), job.value.idempotencyKey, job.value.body, status, attempts,
                               Max(5, attempts), Some(origin), Some(raw)));
    }

    lemma FirstRowFits(source: L.Source, e: L.Entry, before: L.Db)
      ensures var done := L.ImportJob(env, source, before, e);
        done.Success? && L.DistinctIds(source.transfers) && !L.HasOrigin(before, L.OriginOf(source, e)) ==>
          R.HasItsRow(env, source, done.value, source.hash, e)
    {
      var done := L.ImportJob(env, source, before, e);
      if done.Success? && L.DistinctIds(source.transfers) && !L.HasOrigin(before, L.OriginOf(source, e)) {
        R.NewJobHasExactRow(env, source, before, e);
        R.ExactRowFits(env, source, done.value, e);
      }
    }

    /** The import loop after the given entries, with its two counters. */
    ghost predicate Progress(source: L.Source, start: L.Db, entries: seq<L.Entry>, now: L.Db, imported: nat,
                             quarantined: nat) {
      && L.ImportJobs(env, source, start, entries) == Success(now)
      && imported == L.CountOf(env, source, entries, L.Imported)
      && quarantined == L.CountOf(env, source, entries, L.Quarantined)
    }

    ghost predicate Fails(source: L.Source, start: L.Db, entries: seq<L.Entry>, error: Error) {
      L.ImportJobs(env, source, start, entries) == Failure(error)
    }

    /** One turn of the import loop. */
    method ImportNext(source: L.Source, list: L.SourceList, index: nat, raw: L.Json, imported: nat, quarantined: nat,
                      ghost start: L.Db, ghost entries: seq<L.Entry>)
      returns (error: Option<Error>, i: nat, q: nat)
      requires entries != [] && entries[|entries| - 1] == L.Entry(list, index, raw)
      requires Progress(source, start, entries[..|entries| - 1], db, imported, quarantined)
      modifies this
      ensures error.None? ==> Progress(source, start, entries, db, i, q)
      ensures error.Some? ==> Fails(source, start, entries, error.value)
    {
      var kind;
      error, kind := ImportJob(source, list, index, raw);
      i, q := imported, quarantined;
      if kind.Imported? {
        i := i + 1;
      } else {
        q := q + 1;
      }
    }

    /** One list of the import loop. */
    method ImportList(source: L.Source, list: L.SourceList, raws: seq<L.Json>, imported: nat, quarantined: nat,
                      ghost start: L.Db, ghost all: seq<L.Entry>, ghost first: nat)
      returns (error: Option<Error>, i: nat, q: nat)
      requires ListAt(all, first, list, raws)
      requires Progress(source, start, all[..first], db, imported, quarantined)
      modifies this
      ensures error.None? ==> Progress(source, start, all[..first + |raws|], db, i, q)
      ensures error.Some? ==> Fails(source, start, all, error.value)
    {
      i, q := imported, quarantined;
      for k := 0 to |raws|
        invariant Progress(source, start, all[..first + k], db, i, q)
      {
        assert all[..first + k + 1][..first + k] == all[..first + k];
        error, i, q := ImportNext(source, list, k, raws[k], i, q, start, all[..first + k + 1]);
        if error.Some? {
          JobFailureStays(source, start, all, first + k + 1);
          return;
        }
      }
      error := None;
    }

    lemma {:induction false} JobFailureStays(source: L.Source, start: L.Db, entries: seq<L.Entry>, i: nat)
      requires i <= |entries| && L.ImportJobs(env, source, start, entries[..i]).Failure?
      ensures L.ImportJobs(env, source, start, entries) == L.ImportJobs(env, source, start, entries[..i])
      decreases |entries|
    {
      if i == |entries| {
        assert entries[..i] == entries;
      } else {
        assert entries[..|entries| - 1][..i] == entries[..i];
        JobFailureStays(source, start, entries[..|entries| - 1], i);
      }
    }

    /** The three lists in turn. */
    method ImportLists(source: L.Source, ghost all: seq<L.Entry>)
      returns (error: Option<Error>, imported: nat, quarantined: nat)
      requires ListsAre(all, source)
      modifies this
      ensures error.None? ==> Progress(source, old(db), all, db, imported, quarantined)
      ensures error.Some? ==> Fails(source, old(db), all, error.value)
    {
      ghost var start := db;
      imported, quarantined := 0, 0;
      for k := 0 to 3
        invariant FirstOf(source, k) <= |all|
        invariant Progress(source, start, all[..FirstOf(source, k)], db, imported, quarantined)
      {
        assert ListIs(all, source, k);
        var list := ListNo(k);
        error, imported, quarantined := ImportList(source, list, RawsOf(source, list), imported, quarantined,
                                                   start, all, FirstOf(source, k));
        if error.Some? {
          return;
        }
      }
      assert all[..|all|] == all;
      error := None;
    }

    method AllGenerations(source: L.Source, ghost all: seq<L.Entry>) returns (generations: map<string, L.Generation>)
      requires ListsAre(all, source)
      ensures generations == L.Generations(env, source, all)
    {
      generations := map[];
      for k := 0 to 3
        invariant FirstOf(source, k) <= |all|
        invariant generations == L.Generations(env, source, all[..FirstOf(source, k)])
      {
        assert ListIs(all, source, k);
        var list := ListNo(k);
        generations :=
          RecordGenerations(source, list, RawsOf(source, list), generations, all, FirstOf(source, k));
      }
      assert all[..|all|] == all;
    }

    /** The statements of the transaction, without its rollback. */
    method Statements(source: L.Source, hash: string) returns (error: Option<Error>, imported: nat, quarantined: nat)
      requires L.DistinctIds(source.transfers) && source.hash == hash
      modifies this
      ensures L.Import(env, source, hash, old(db))
              == if error.None? then Success(L.Report(db, imported, quarantined)) else Failure(error.value)
    {
      imported, quarantined := 0, 0;
      error := ImportTransfers(source.transfers, hash);
      if error.Some? {
        return;
      }
      EntriesAreTheLists(source);
      var generations := AllGenerations(source, L.Entries(source));
      GenerationsAreWellKeyed(env, source, L.Entries(source));
      error := UpdateGenerations(generations);
      if error.Some? {
        return;
      }
      error, imported, quarantined := ImportLists(source, L.Entries(source));
    }

    /** The whole command: it commits what `Import` says, or leaves the database as it was. */
    method RunImport(source: L.Source, hash: string) returns (error: Option<Error>, imported: nat, quarantined: nat)
      modifies this
      ensures L.Import(env, source, hash, old(db))
              == if error.None? then Success(L.Report(db, imported, quarantined)) else Failure(error.value)
      ensures error.Some? ==> db == old(db)
      ensures old(db) == R.EMPTY ==> (error.None? <==> R.GoesThrough(env, source, hash))
      ensures error.None? ==> forall e <- L.Entries(source) :: R.HasOwnRow(env, source, db, hash, e)
      ensures error.None? && L.Unused(source, old(db), L.Entries(source)) ==>
        L.Grows(old(db), db) && forall e <- L.Entries(source) :: R.HasItsRow(env, source, db, hash, e)
    {
      R.FirstImportGoesThrough(env, source, hash);
      ghost var before := db;
      if !L.DistinctIds(source.transfers) || source.hash != hash {
        return Some(L.RejectedSource), 0, 0;
      }
      var snapshot := db;
      error, imported, quarantined := Statements(source, hash);
      if error.Some? {
        db := snapshot;
      } else {
        R.RowsAreOwn(env, source, hash, before);
        if L.Unused(source, before, L.Entries(source)) {
          R.FirstImportRows(env, source, hash, before);
        }
      }
    }
  }
}
