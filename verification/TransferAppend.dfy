/**
 * `appendToTransfer` of scripts/transfer-ops.ts as a protocol between one
 * process at a time, the disk and the stored transfer, with a crash possible
 * between any two writes and any number of reruns.  Every source directory has
 * its own checkpoint file for the transfer.
 */
module TransferAppend {
  import opened Basics
  import opened TransferFiles

  datatype Checkpoint = Checkpoint(dir: string, entries: seq<string>, transferId: string,
                                   completed: map<string, Processed>)

  /** `Finalized` is the early return that only cleans up a stale checkpoint. */
  datatype Phase = Starting | Working | Saved | Finalized

  /** One running command: `base` is the file list it read, `completed` its in-memory record. */
  datatype Session = Session(dir: string, entries: seq<string>, base: seq<File>, completed: map<string, Processed>,
                             phase: Phase)

  /** What one save added, and what one call returned, with the directory it was for. */
  datatype Batch = Batch(dir: string, files: seq<File>)

  datatype Reply = Reply(dir: string, addedCount: nat)

  /**
   * `files` is the file list of transfer `id` and `disk` the checkpoint found in
   * each directory.  `appended` and `returned` are the history of saves and
   * replies; `saved` holds the directories whose checkpoint has been saved.
   */
  datatype State = State(id: string, files: seq<File>, disk: map<string, Checkpoint>, session: Option<Session>,
                         appended: seq<Batch>, returned: seq<Reply>, saved: set<string>)

  datatype Event =
    | Begins(alive: bool, dir: string, entries: seq<string>)
    | WritesCheckpoint
    | Processes(name: string, result: Processed)
    | Saves(files: seq<File>)
    | Removes(ok: bool)
    | Ends

  function CheckpointOf(id: string, s: Session): Checkpoint {
    Checkpoint(s.dir, s.entries, id, s.completed)
  }

  predicate AllDone(entries: seq<string>, completed: map<string, Processed>) {
    forall e <- entries :: e in completed
  }

  predicate HasId(files: seq<File>, id: string) {
    exists f <- files :: f.id == id
  }

  predicate HasName(files: seq<File>, name: string) {
    exists f <- files :: f.filename == name
  }

  /** The recorded results are all in the transfer: ids and names are looked up separately. */
  predicate AlreadyIn(entries: seq<string>, completed: map<string, Processed>, files: seq<File>) {
    && AllDone(entries, completed)
    && forall e <- entries :: HasId(files, completed[e].file.id) && HasName(files, completed[e].file.filename)
  }

  predicate NamesClash(entries: seq<string>, files: seq<File>) {
    exists e <- entries :: HasName(files, e)
  }

  /** The checkpoint found in the directory is of another directory, another transfer or other files. */
  predicate Refuses(s: State, dir: string, entries: seq<string>) {
    && dir in s.disk
    && (s.disk[dir].dir != dir || s.disk[dir].transferId != s.id || s.disk[dir].entries != entries)
  }

  function CompletedIn(disk: map<string, Checkpoint>, dir: string): map<string, Processed> {
    if dir in disk then disk[dir].completed else map[]
  }

  /** From the expiry check to the first write; a throw leaves everything as it was. */
  function Begin(s: State, alive: bool, dir: string, entries: seq<string>): State {
    var completed := CompletedIn(s.disk, dir);
    if !alive || Refuses(s, dir, entries) then s
    else if dir in s.disk && AlreadyIn(entries, completed, s.files) then
      s.(session := Some(Session(dir, entries, s.files, completed, Finalized)))
    else if NamesClash(entries, s.files) then s
    else s.(session := Some(Session(dir, entries, s.files, completed, if dir in s.disk then Working else Starting)))
  }

  /** The names a directory lists are distinct, and an empty directory is refused. */
  ghost predicate Listing(entries: seq<string>) {
    entries != [] && forall i, j :: 0 <= i < j < |entries| ==> entries[i] != entries[j]
  }

  ghost predicate Enabled(s: State, e: Event) {
    match e
    case Begins(_, _, entries) => s.session.None? && Listing(entries)
    case WritesCheckpoint => s.session.Some? && (s.session.value.phase.Starting? || s.session.value.phase.Working?)
    // Every media backend gives the stored file the name of the entry.
    case Processes(name, result) =>
      && s.session.Some? && s.session.value.phase.Working?
      && name in s.session.value.entries && name !in s.session.value.completed
      && result.file.filename == name
    case Saves(files) =>
      && s.session.Some? && s.session.value.phase.Working?
      && AllDone(s.session.value.entries, s.session.value.completed)
      && s.session.value.dir in s.disk && s.disk[s.session.value.dir] == CheckpointOf(s.id, s.session.value)
      && Keys(files) == Keys(s.session.value.base) + Keys(Results(s.session.value.entries, s.session.value.completed))
    case Removes(_) => s.session.Some? && (s.session.value.phase.Saved? || s.session.value.phase.Finalized?)
    case Ends => s.session.Some?
  }

  function Step(s: State, e: Event): State
    requires Enabled(s, e)
  {
    match e
    case Begins(alive, dir, entries) => Begin(s, alive, dir, entries)
    case WritesCheckpoint =>
      var session := s.session.value;
      s.(disk := s.disk[session.dir := CheckpointOf(s.id, session)], session := Some(session.(phase := Working)))
    case Processes(name, result) =>
      s.(session := Some(s.session.value.(completed := s.session.value.completed[name := result])))
    case Saves(files) =>
      var session := s.session.value;
      s.(files := files, session := Some(session.(phase := Saved)), saved := s.saved + {session.dir},
         appended := s.appended + [Batch(session.dir, Results(session.entries, session.completed))])
    case Removes(ok) =>
      var session := s.session.value;
      s.(disk := if ok then s.disk - {session.dir} else s.disk, session := None,
         saved := if ok then s.saved - {session.dir} else s.saved,
         returned := s.returned + [Reply(session.dir, if session.phase.Saved? then |session.entries| else 0)])
    case Ends => s.(session := None)
  }

  ghost predicate ValidRun(s: State, events: seq<Event>)
    decreases |events|
  {
    events == [] || (Enabled(s, events[0]) && ValidRun(Step(s, events[0]), events[1..]))
  }

  ghost function Exec(s: State, events: seq<Event>): State
    requires ValidRun(s, events)
    decreases |events|
  {
    if events == [] then s else Exec(Step(s, events[0]), events[1..])
  }

  // ---- The invariant ----

  ghost predicate NamedAfter(entries: seq<string>, completed: map<string, Processed>) {
    forall e <- completed :: e in entries && completed[e].file.filename == e
  }

  ghost predicate NamesAre(batch: seq<File>, entries: seq<string>) {
    |batch| == |entries| && forall i :: 0 <= i < |batch| ==> batch[i].filename == entries[i]
  }

  /** A save for this directory added exactly these names. */
  ghost predicate SavedBy(appended: seq<Batch>, dir: string, entries: seq<string>) {
    exists b <- appended :: b.dir == dir && NamesAre(b.files, entries)
  }

  /** A save for another directory added a file of this name. */
  predicate AddedElsewhere(appended: seq<Batch>, dir: string, name: string) {
    exists b <- appended :: b.dir != dir && HasName(b.files, name)
  }

  /** Of the names of an unsaved checkpoint only those another directory added can be taken;
      a saved one is in the transfer. */
  ghost predicate CheckpointInv(s: State, dir: string, c: Checkpoint) {
    && c.dir == dir && Listing(c.entries) && c.transferId == s.id && NamedAfter(c.entries, c.completed)
    && (dir in s.saved ==> AlreadyIn(c.entries, c.completed, s.files) && SavedBy(s.appended, dir, c.entries))
    && (dir !in s.saved ==> forall e <- c.entries :: HasName(s.files, e) ==> AddedElsewhere(s.appended, dir, e))
  }

  ghost predicate SessionInv(s: State, session: Session) {
    && Listing(session.entries) && NamedAfter(session.entries, session.completed)
    && (session.phase.Starting? ==> session.dir !in s.disk)
    && (!session.phase.Starting? ==>
          && session.dir in s.disk
          && s.disk[session.dir] == CheckpointOf(s.id, session).(completed := s.disk[session.dir].completed))
    && (session.phase.Starting? || session.phase.Working? ==>
          !NamesClash(session.entries, s.files) && session.base == s.files && session.dir !in s.saved)
    && (session.phase.Saved? || session.phase.Finalized? ==>
          && s.disk[session.dir].completed == session.completed
          && AlreadyIn(session.entries, session.completed, s.files))
    && (session.phase.Saved? ==> session.dir in s.saved)
  }

  ghost predicate Inv(s: State) {
    && s.saved <= s.disk.Keys
    && (forall dir <- s.disk :: CheckpointInv(s, dir, s.disk[dir]))
    && (s.session.Some? ==> SessionInv(s, s.session.value))
  }

  lemma MemberOfMerged(next: seq<File>, base: seq<File>, batch: seq<File>, f: File)
    requires Keys(next) == Keys(base) + Keys(batch) && f in next
    ensures (HasName(base, f.filename) && HasId(base, f.id)) || (HasName(batch, f.filename) && HasId(batch, f.id))
  {
    KeysMember(next, f.id, f.filename);
    KeysMember(base, f.id, f.filename);
    KeysMember(batch, f.id, f.filename);
  }

  lemma MemberIsMerged(next: seq<File>, part: seq<File>, f: File)
    requires Keys(part) <= Keys(next) && f in part
    ensures HasName(next, f.filename) && HasId(next, f.id)
  {
    KeysMember(next, f.id, f.filename);
    KeysMember(part, f.id, f.filename);
  }

  /** Merging keeps ids and names, and adds none but those of the batch. */
  lemma MergedMembers(next: seq<File>, base: seq<File>, batch: seq<File>)
    requires Keys(next) == Keys(base) + Keys(batch)
    ensures forall name :: HasName(next, name) <==> HasName(base, name) || HasName(batch, name)
    ensures forall id :: HasId(next, id) <==> HasId(base, id) || HasId(batch, id)
  {
    forall f | f in next
      ensures HasName(base, f.filename) || HasName(batch, f.filename)
      ensures HasId(base, f.id) || HasId(batch, f.id)
    {
      MemberOfMerged(next, base, batch, f);
    }
    forall f | f in base
      ensures HasName(next, f.filename) && HasId(next, f.id)
    {
      MemberIsMerged(next, base, f);
    }
    forall f | f in batch
      ensures HasName(next, f.filename) && HasId(next, f.id)
    {
      MemberIsMerged(next, batch, f);
    }
  }

  lemma ResultsMember(entries: seq<string>, completed: map<string, Processed>, e: string)
    requires AllDone(entries, completed) && e in entries
    ensures completed[e].file in Results(entries, completed)
  {
    var i :| 0 <= i < |entries| && entries[i] == e;
    assert Results(entries, completed)[i] == completed[e].file;
  }

  lemma ResultsNames(entries: seq<string>, completed: map<string, Processed>)
    requires AllDone(entries, completed) && NamedAfter(entries, completed)
    ensures NamesAre(Results(entries, completed), entries)
    ensures forall name :: HasName(Results(entries, completed), name) <==> name in entries
  {
    var batch := Results(entries, completed);
    forall i | 0 <= i < |batch|
      ensures batch[i].filename == entries[i]
    {
      assert entries[i] in entries;
    }
    forall name | name in entries
      ensures HasName(batch, name)
    {
      ResultsMember(entries, completed, name);
    }
  }

  /** After a save: every other checkpoint is as it was, but for the names this directory has taken. */
  lemma SaveKeepsOther(s: State, files: seq<File>, dir: string)
    requires Inv(s) && Enabled(s, Saves(files)) && dir in s.disk && dir != s.session.value.dir
    ensures CheckpointInv(Step(s, Saves(files)), dir, s.disk[dir])
  {
    var session := s.session.value;
    var batch := Batch(session.dir, Results(session.entries, session.completed));
    MergedMembers(files, s.files, batch.files);
    var t := Step(s, Saves(files));
    assert batch in t.appended && forall b <- s.appended :: b in t.appended;
  }

  lemma SaveKeepsOwn(s: State, files: seq<File>)
    requires Inv(s) && Enabled(s, Saves(files))
    ensures var session, t := s.session.value, Step(s, Saves(files));
      && AlreadyIn(session.entries, session.completed, files)
      && SavedBy(t.appended, session.dir, session.entries)
  {
    var session := s.session.value;
    var batch := Batch(session.dir, Results(session.entries, session.completed));
    MergedMembers(files, s.files, batch.files);
    ResultsNames(session.entries, session.completed);
    forall e | e in session.entries
      ensures session.completed[e].file in batch.files
    {
      ResultsMember(session.entries, session.completed, e);
    }
    assert batch in Step(s, Saves(files)).appended;
  }

  lemma SaveKeepsInv(s: State, files: seq<File>)
    requires Inv(s) && Enabled(s, Saves(files))
    ensures Inv(Step(s, Saves(files)))
  {
    SaveKeepsOwn(s, files);
    forall dir | dir in s.disk && dir != s.session.value.dir
      ensures CheckpointInv(Step(s, Saves(files)), dir, s.disk[dir])
    {
      SaveKeepsOther(s, files, dir);
    }
  }

  lemma StepKeepsInv(s: State, e: Event)
    requires Inv(s) && Enabled(s, e)
    ensures Inv(Step(s, e))
  {
    match e
    case Saves(files) => SaveKeepsInv(s, files);
    case Begins(_, _, _) =>
    case WritesCheckpoint =>
    case Processes(_, _) =>
    case Removes(_) =>
    case Ends =>
  }

  // ---- What the transfer holds after any run ----

  function Flatten(batches: seq<Batch>): seq<File> {
    if batches == [] then [] else Flatten(batches[..|batches| - 1]) + batches[|batches| - 1].files
  }

  lemma FlattenNext(batches: seq<Batch>, batch: Batch)
    ensures Flatten(batches + [batch]) == Flatten(batches) + batch.files
  {
    assert (batches + [batch])[..|batches|] == batches;
  }

  lemma {:induction false} FlattenMember(batches: seq<Batch>, batch: Batch, f: File)
    requires batch in batches && f in batch.files
    ensures f in Flatten(batches)
  {
    var n := |batches| - 1;
    if batch != batches[n] {
      assert batch in batches[..n];
      FlattenMember(batches[..n], batch, f);
    }
  }

  ghost predicate Distinct(files: seq<File>) {
    forall i, j :: 0 <= i < j < |files| ==> files[i].filename != files[j].filename
  }

  ghost predicate NoneNamedIn(added: seq<File>, files: seq<File>) {
    forall f <- added :: !HasName(files, f.filename)
  }

  /** The transfer holds the original files, and every added file once, under a name nothing else has. */
  ghost predicate Ledger(original: seq<File>, files: seq<File>, added: seq<File>) {
    Keys(files) == Keys(original) + Keys(added) && Distinct(added) && NoneNamedIn(added, original)
  }

  lemma LedgerGrows(original: seq<File>, files: seq<File>, added: seq<File>, batch: seq<File>, next: seq<File>)
    requires Ledger(original, files, added)
    requires Keys(next) == Keys(files) + Keys(batch) && Distinct(batch) && NoneNamedIn(batch, files)
    ensures Ledger(original, next, added + batch)
  {
    KeysConcat(added, batch);
    MergedMembers(files, original, added);
    forall i, j | 0 <= i < j < |added + batch|
      ensures (added + batch)[i].filename != (added + batch)[j].filename
    {
      if i < |added| <= j {
        assert added[i] in added && batch[j - |added|] in batch;
      }
    }
  }

  lemma SavedBatchIsNew(s: State, files: seq<File>)
    requires Inv(s) && Enabled(s, Saves(files))
    ensures var batch := Results(s.session.value.entries, s.session.value.completed);
      Distinct(batch) && NoneNamedIn(batch, s.files) && NamesAre(batch, s.session.value.entries)
  {
    ResultsNames(s.session.value.entries, s.session.value.completed);
  }

  lemma StepKeepsLedger(original: seq<File>, s: State, e: Event)
    requires Inv(s) && Enabled(s, e) && Ledger(original, s.files, Flatten(s.appended))
    ensures Ledger(original, Step(s, e).files, Flatten(Step(s, e).appended))
  {
    if e.Saves? {
      var batch := Batch(s.session.value.dir, Results(s.session.value.entries, s.session.value.completed));
      SavedBatchIsNew(s, e.files);
      LedgerGrows(original, s.files, Flatten(s.appended), batch.files, e.files);
      FlattenNext(s.appended, batch);
    }
  }

  /** Before the first command: nothing on disk, nothing running, nothing added. */
  predicate Clean(s: State) {
    s.disk == map[] && s.session.None? && s.appended == [] && s.returned == [] && s.saved == {}
  }

  lemma {:induction false} RunKeepsLedger(original: seq<File>, s: State, events: seq<Event>)
    requires Inv(s) && Ledger(original, s.files, Flatten(s.appended)) && ValidRun(s, events)
    ensures Inv(Exec(s, events)) && Ledger(original, Exec(s, events).files, Flatten(Exec(s, events).appended))
    decreases |events|
  {
    if events != [] {
      StepKeepsInv(s, events[0]);
      StepKeepsLedger(original, s, events[0]);
      RunKeepsLedger(original, Step(s, events[0]), events[1..]);
    }
  }

  /**
   * Over any crashes and reruns of any append commands, from any directories,
   * the transfer holds its original files and every added file exactly once, no
   * added name is added twice and none was there before.
   */
  lemma NothingIsAddedTwice(s: State, events: seq<Event>)
    requires Clean(s) && ValidRun(s, events)
    ensures var added := Flatten(Exec(s, events).appended);
      && Keys(Exec(s, events).files) == Keys(s.files) + Keys(added)
      && (forall i, j :: 0 <= i < j < |added| ==> added[i].filename != added[j].filename)
      && (forall f <- added :: !HasName(s.files, f.filename))
  {
    RunKeepsLedger(s.files, s, events);
  }

  // ---- When the finalized test is right ----

  /** A name is added by one batch only. */
  lemma {:induction false} OneBatchPerName(batches: seq<Batch>, b: Batch, c: Batch, name: string)
    requires Distinct(Flatten(batches)) && b in batches && c in batches && HasName(b.files, name)
    requires HasName(c.files, name)
    ensures b == c
  {
    var n := |batches| - 1;
    var before, last := batches[..n], batches[n];
    forall d, f | d in before && f in d.files && f.filename == name
      ensures !HasName(last.files, name)
    {
      FlattenMember(before, d, f);
      var i :| 0 <= i < |Flatten(before)| && Flatten(before)[i] == f;
      forall k | 0 <= k < |last.files|
        ensures last.files[k].filename != name
      {
        assert Flatten(batches)[i] == f && Flatten(batches)[|Flatten(before)| + k] == last.files[k];
      }
    }
    if b in before && c in before {
      assert forall i :: 0 <= i < |Flatten(before)| ==> Flatten(before)[i] == Flatten(batches)[i];
      OneBatchPerName(before, b, c, name);
    }
  }

  /**
   * When the finalized test fires, the checkpoint was saved if and only if no
   * other directory added a file of one of its names.  If another did, all its
   * names are another's, and its own files were never added.
   */
  lemma FinalizedMeansAdded(original: seq<File>, s: State, dir: string)
    requires Inv(s) && Ledger(original, s.files, Flatten(s.appended))
    requires dir in s.disk && AlreadyIn(s.disk[dir].entries, s.disk[dir].completed, s.files)
    ensures dir in s.saved <==> forall e <- s.disk[dir].entries :: !AddedElsewhere(s.appended, dir, e)
    ensures dir !in s.saved <==> forall e <- s.disk[dir].entries :: AddedElsewhere(s.appended, dir, e)
  {
    var entries := s.disk[dir].entries;
    assert entries[0] in entries;
    if dir in s.saved {
      var own :| own in s.appended && own.dir == dir && NamesAre(own.files, entries);
      forall e | e in entries
        ensures !AddedElsewhere(s.appended, dir, e)
      {
        var i :| 0 <= i < |entries| && entries[i] == e;
        assert own.files[i] in own.files;
        forall b | b in s.appended && HasName(b.files, e)
          ensures b == own
        {
          OneBatchPerName(s.appended, b, own, e);
        }
      }
    } else {
      forall e | e in entries
        ensures AddedElsewhere(s.appended, dir, e)
      {
        assert s.disk[dir].completed[e].file.filename == e;
      }
    }
  }

  // ---- Reruns of one command ----

  /** Every attempt for this directory finds the same files in it. */
  ghost predicate SameListing(events: seq<Event>, dir: string, entries: seq<string>) {
    forall e <- events :: e.Begins? && e.dir == dir ==> e.entries == entries
  }

  /** The batches saved for this directory. */
  function Own(appended: seq<Batch>, dir: string): seq<Batch> {
    if appended == [] then []
    else Own(appended[..|appended| - 1], dir)
         + if appended[|appended| - 1].dir == dir then [appended[|appended| - 1]] else []
  }

  lemma {:induction false} OwnMember(appended: seq<Batch>, dir: string, b: Batch)
    ensures b in Own(appended, dir) <==> b in appended && b.dir == dir
  {
    if appended != [] {
      OwnMember(appended[..|appended| - 1], dir, b);
      assert appended == appended[..|appended| - 1] + [appended[|appended| - 1]];
    }
  }

  lemma OwnNext(appended: seq<Batch>, dir: string, batch: Batch)
    ensures Own(appended + [batch], dir) == Own(appended, dir) + if batch.dir == dir then [batch] else []
  {
    assert (appended + [batch])[..|appended|] == appended;
  }

  ghost predicate AllElsewhere(appended: seq<Batch>, dir: string, entries: seq<string>) {
    forall e <- entries :: AddedElsewhere(appended, dir, e)
  }

  /** The entries have been added for this directory once or not yet;
      a call has returned only if they are in the transfer. */
  ghost predicate AddedOnce(appended: seq<Batch>, returned: seq<Reply>, dir: string, entries: seq<string>) {
    && |Own(appended, dir)| <= 1
    && (forall b <- Own(appended, dir) :: NamesAre(b.files, entries))
    && (forall r <- returned :: r.dir == dir ==> Own(appended, dir) != [] || AllElsewhere(appended, dir, entries))
  }

  ghost predicate OneCommand(s: State, dir: string, entries: seq<string>) {
    && (dir in s.disk ==> s.disk[dir].entries == entries)
    && (s.session.Some? && s.session.value.dir == dir ==> s.session.value.entries == entries)
    && AddedOnce(s.appended, s.returned, dir, entries)
  }

  lemma ElsewhereGrows(appended: seq<Batch>, dir: string, entries: seq<string>, batch: Batch)
    requires AllElsewhere(appended, dir, entries)
    ensures AllElsewhere(appended + [batch], dir, entries)
  {
    forall e | e in entries
      ensures AddedElsewhere(appended + [batch], dir, e)
    {
      var b :| b in appended && b.dir != dir && HasName(b.files, e);
      assert b in appended + [batch];
    }
  }

  lemma BatchKeepsAddedOnce(appended: seq<Batch>, returned: seq<Reply>, dir: string, entries: seq<string>, batch: Batch)
    requires AddedOnce(appended, returned, dir, entries)
    requires batch.dir == dir ==> Own(appended, dir) == [] && NamesAre(batch.files, entries)
    ensures AddedOnce(appended + [batch], returned, dir, entries)
  {
    OwnNext(appended, dir, batch);
    if AllElsewhere(appended, dir, entries) {
      ElsewhereGrows(appended, dir, entries, batch);
    }
  }

  /** Once a directory's batch is in, its names are taken. */
  lemma OwnNamesClash(original: seq<File>, s: State, dir: string, entries: seq<string>)
    requires Ledger(original, s.files, Flatten(s.appended)) && OneCommand(s, dir, entries) && Own(s.appended, dir) != []
    requires Listing(entries)
    ensures NamesClash(entries, s.files)
  {
    var b := Own(s.appended, dir)[0];
    OwnMember(s.appended, dir, b);
    FlattenMember(s.appended, b, b.files[0]);
    MergedMembers(s.files, original, Flatten(s.appended));
    assert entries[0] in entries && HasName(s.files, entries[0]);
  }

  lemma SaveKeepsOneCommand(original: seq<File>, s: State, files: seq<File>, dir: string, entries: seq<string>)
    requires Inv(s) && Ledger(original, s.files, Flatten(s.appended)) && OneCommand(s, dir, entries)
    requires Enabled(s, Saves(files))
    ensures OneCommand(Step(s, Saves(files)), dir, entries)
  {
    var session := s.session.value;
    var batch := Batch(session.dir, Results(session.entries, session.completed));
    SavedBatchIsNew(s, files);
    if session.dir == dir && Own(s.appended, dir) != [] {
      OwnNamesClash(original, s, dir, entries);
    }
    BatchKeepsAddedOnce(s.appended, s.returned, dir, entries, batch);
  }

  lemma RemoveKeepsOneCommand(original: seq<File>, s: State, ok: bool, dir: string, entries: seq<string>)
    requires Inv(s) && Ledger(original, s.files, Flatten(s.appended)) && OneCommand(s, dir, entries)
    requires Enabled(s, Removes(ok))
    ensures OneCommand(Step(s, Removes(ok)), dir, entries)
  {
    if s.session.value.dir == dir {
      FinalizedMeansAdded(original, s, dir);
      if dir in s.saved {
        var b :| b in s.appended && b.dir == dir && NamesAre(b.files, entries);
        OwnMember(s.appended, dir, b);
      }
    }
  }

  /** What neither saves nor returns leaves the history as it is. */
  lemma OtherKeepsOneCommand(s: State, e: Event, dir: string, entries: seq<string>)
    requires OneCommand(s, dir, entries) && Enabled(s, e) && !e.Saves? && !e.Removes?
    requires e.Begins? && e.dir == dir ==> e.entries == entries
    ensures OneCommand(Step(s, e), dir, entries)
  {
    assert Step(s, e).appended == s.appended && Step(s, e).returned == s.returned;
  }

  lemma StepKeepsOneCommand(original: seq<File>, s: State, e: Event, dir: string, entries: seq<string>)
    requires Inv(s) && Ledger(original, s.files, Flatten(s.appended)) && OneCommand(s, dir, entries) && Enabled(s, e)
    requires e.Begins? && e.dir == dir ==> e.entries == entries
    ensures OneCommand(Step(s, e), dir, entries)
  {
    if e.Saves? {
      SaveKeepsOneCommand(original, s, e.files, dir, entries);
    } else if e.Removes? {
      RemoveKeepsOneCommand(original, s, e.ok, dir, entries);
    } else {
      OtherKeepsOneCommand(s, e, dir, entries);
    }
  }

  lemma {:induction false} RunKeepsOneCommand(original: seq<File>, s: State, events: seq<Event>, dir: string,
                                              entries: seq<string>)
    requires Inv(s) && Ledger(original, s.files, Flatten(s.appended)) && OneCommand(s, dir, entries)
    requires ValidRun(s, events) && SameListing(events, dir, entries)
    ensures Ledger(original, Exec(s, events).files, Flatten(Exec(s, events).appended))
    ensures OneCommand(Exec(s, events), dir, entries)
    decreases |events|
  {
    if events != [] {
      StepKeepsInv(s, events[0]);
      StepKeepsLedger(original, s, events[0]);
      StepKeepsOneCommand(original, s, events[0], dir, entries);
      RunKeepsOneCommand(original, Step(s, events[0]), events[1..], dir, entries);
    }
  }

  /**
   * Over any crashes and reruns, mixed with commands for other directories, one
   * directory's entries are added by at most one save of exactly those entries;
   * once a call for it has returned, that save is there, or other directories
   * had added every one of its names.
   */
  lemma EachDirectoryIsAddedOnce(s: State, events: seq<Event>, dir: string, entries: seq<string>)
    requires Clean(s) && ValidRun(s, events) && SameListing(events, dir, entries)
    ensures var t := Exec(s, events);
      && |Own(t.appended, dir)| <= 1
      && (forall b <- Own(t.appended, dir) :: NamesAre(b.files, entries))
      && (forall r <- t.returned :: r.dir == dir ==>
            Own(t.appended, dir) != [] || AllElsewhere(t.appended, dir, entries))
  {
    RunKeepsOneCommand(s.files, s, events, dir, entries);
  }

  ghost predicate SameCommand(events: seq<Event>, dir: string, entries: seq<string>) {
    forall e <- events :: e.Begins? ==> e.dir == dir && e.entries == entries
  }

  /** Only this directory is on disk, running, in the history. */
  ghost predicate OnlyFor(s: State, dir: string) {
    && (forall d <- s.disk :: d == dir)
    && (s.session.Some? ==> s.session.value.dir == dir)
    && (forall b <- s.appended :: b.dir == dir)
    && (forall r <- s.returned :: r.dir == dir)
  }

  lemma {:induction false} RunKeepsOnlyFor(s: State, events: seq<Event>, dir: string, entries: seq<string>)
    requires OnlyFor(s, dir) && ValidRun(s, events) && SameCommand(events, dir, entries)
    ensures OnlyFor(Exec(s, events), dir)
    decreases |events|
  {
    if events != [] {
      RunKeepsOnlyFor(Step(s, events[0]), events[1..], dir, entries);
    }
  }

  lemma {:induction false} OnlyOwn(appended: seq<Batch>, dir: string)
    requires forall b <- appended :: b.dir == dir
    ensures Own(appended, dir) == appended
  {
    if appended != [] {
      OnlyOwn(appended[..|appended| - 1], dir);
    }
  }

  lemma SomeReply(returned: seq<Reply>)
    ensures returned == [] || exists r :: r in returned
  {
    assert returned == [] || returned[0] in returned;
  }

  /**
   * Append is exactly-once: over any crashes and reruns of the same command the
   * transfer holds its original files, and beside them either nothing or each
   * directory entry once; once any call has returned, it is each entry once.
   */
  lemma AppendIsExactlyOnce(s: State, events: seq<Event>, dir: string, entries: seq<string>)
    requires Clean(s) && ValidRun(s, events) && SameCommand(events, dir, entries) && entries != []
    ensures var t := Exec(s, events);
      if t.appended == [] then Keys(t.files) == Keys(s.files) && t.returned == []
      else
        && |t.appended| == 1 && NamesAre(t.appended[0].files, entries)
        && Keys(t.files) == Keys(s.files) + Keys(t.appended[0].files)
  {
    RunKeepsOneCommand(s.files, s, events, dir, entries);
    RunKeepsOnlyFor(s, events, dir, entries);
    var t := Exec(s, events);
    OnlyOwn(t.appended, dir);
    assert entries[0] in entries;
    if t.appended != [] {
      assert t.appended[..0] == [] && Flatten(t.appended) == [] + t.appended[0].files == t.appended[0].files;
    }
    SomeReply(t.returned);
  }

  // ---- Composing runs ----

  ghost predicate Reaches(s: State, t: State) {
    exists events :: ValidRun(s, events) && Exec(s, events) == t
  }

  lemma ReachesItself(s: State)
    ensures Reaches(s, s)
  {
    assert ValidRun(s, []) && Exec(s, []) == s;
  }

  lemma {:induction false} RunSnoc(s: State, events: seq<Event>, e: Event)
    requires ValidRun(s, events) && Enabled(Exec(s, events), e)
    ensures ValidRun(s, events + [e]) && Exec(s, events + [e]) == Step(Exec(s, events), e)
    decreases |events|
  {
    if events == [] {
      assert ValidRun(Step(s, e), []);
      assert (events + [e])[1..] == [];
    } else {
      RunSnoc(Step(s, events[0]), events[1..], e);
      assert (events + [e])[1..] == events[1..] + [e];
    }
  }

  lemma ReachesStep(s: State, t: State, e: Event)
    requires Reaches(s, t) && Enabled(t, e)
    ensures Reaches(s, Step(t, e))
  {
    var events :| ValidRun(s, events) && Exec(s, events) == t;
    RunSnoc(s, events, e);
  }
}
