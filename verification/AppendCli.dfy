/**
 * The body of `appendToTransfer` (scripts/transfer-ops.ts), with the disk and
 * the stored transfer as fields it writes step by step.  One call is one
 * attempt, `Fate` says where its process dies, if it does.
 */
module AppendCli {
  import opened Basics
  import opened TransferAppend
  import opened TransferFiles

  datatype Fate = Fate(diesFirst: bool, work: seq<Work>, diesWorking: bool, diesSaved: bool, removeFails: bool)

  datatype Outcome =
    | Returned(addedCount: nat)
    | NotFound | Mismatch | Conflict(names: seq<string>) | Incomplete | Died

  /** What an attempt that works to its end leaves: the merged files saved, or a checkpoint that is not complete. */
  ghost predicate Settles(s: State, t: State, dir: string, entries: seq<string>, completed: map<string, Processed>,
                          arrange: seq<File> -> seq<File>, fate: Fate, outcome: Outcome)
  {
    && (outcome.Incomplete? <==> !AllDone(entries, completed))
    && (outcome.Incomplete? ==> t.files == s.files)
    && (outcome == Returned(|entries|) ==>
          AllDone(entries, completed) && t.files == arrange(s.files + Results(entries, completed)))
    && t.disk == if outcome.Returned? && !fate.removeFails then s.disk - {dir}
                 else s.disk[dir := Checkpoint(dir, entries, s.id, completed)]
  }

  /** The checkpoint found in the directory is of another directory, another transfer or other files. */
  ghost predicate IsForeign(s: State, dir: string, entries: seq<string>) {
    dir in s.disk && !(s.disk[dir].dir == dir && s.disk[dir].transferId == s.id && s.disk[dir].entries == entries)
  }

  /** A checkpoint is there, and each of its results has its id and its name in the transfer. */
  ghost predicate IsThere(s: State, dir: string, entries: seq<string>) {
    && dir in s.disk
    && forall e <- entries ::
         && e in s.disk[dir].completed
         && (exists f <- s.files :: f.id == s.disk[dir].completed[e].file.id)
         && (exists f <- s.files :: f.filename == s.disk[dir].completed[e].file.filename)
  }

  ghost predicate IsTaken(s: State, e: string) {
    exists f <- s.files :: f.filename == e
  }

  /** Which of its answers an attempt gives, by what it finds. */
  ghost predicate Answers(s: State, alive: bool, dir: string, entries: seq<string>, outcome: Outcome) {
    && (outcome.NotFound? <==> !alive)
    && (outcome.Mismatch? <==> alive && IsForeign(s, dir, entries))
    && (outcome.Conflict? <==>
          && alive && !IsForeign(s, dir, entries) && !IsThere(s, dir, entries)
          && exists e <- entries :: IsTaken(s, e))
    && (outcome.Conflict? ==> forall name :: name in outcome.names <==> name in entries && IsTaken(s, name))
    && (outcome == Returned(0) ==> IsThere(s, dir, entries))
    && (IsThere(s, dir, entries) ==> outcome != Returned(|entries|) && !outcome.Incomplete?)
  }

  /** What an attempt that is not killed makes of the transfer. */
  ghost predicate Adds(s: State, files: seq<File>, dir: string, entries: seq<string>,
                       completed: map<string, Processed>, arrange: seq<File> -> seq<File>, work: seq<Work>,
                       outcome: Outcome)
  {
    var done := if dir in s.disk then s.disk[dir].completed else map[];
    && (outcome.Incomplete? <==> exists e <- entries :: IsMissing(e, done, work))
    && (!outcome.Incomplete? ==>
          exists listed :: ListsResults(listed, entries, completed) && files == arrange(s.files + listed))
    && (outcome.Incomplete? ==> files == s.files)
  }

  lemma SettlingAdds(s: State, t: State, dir: string, entries: seq<string>, arrange: seq<File> -> seq<File>,
                     fate: Fate, outcome: Outcome)
    requires outcome.Incomplete? || outcome == Returned(|entries|)
    requires
      Settles(s, t, dir, entries, Completed(entries, CompletedIn(s.disk, dir), fate.work), arrange, fate, outcome)
    ensures Adds(s, t.files, dir, entries, Completed(entries, CompletedIn(s.disk, dir), fate.work), arrange, fate.work,
                 outcome)
  {
    var done := CompletedIn(s.disk, dir);
    MissingIsUnrecorded(entries, done, fate.work);
    if AllDone(entries, Completed(entries, done, fate.work)) {
      ResultsAreListed(entries, Completed(entries, done, fate.work));
    }
  }

  class Cli {
    const id: string
    var files: seq<File>
    var disk: map<string, Checkpoint>
    ghost var appended: seq<Batch>
    ghost var returned: seq<Reply>
    ghost var saved: set<string>

    ghost function View(session: Option<Session>): State
      reads this
    {
      State(id, files, disk, session, appended, returned, saved)
    }

    /** The names of the directory that the transfer already has. */
    method DuplicateNames(entries: seq<string>) returns (names: seq<string>)
      ensures names == [] <==> !NamesClash(entries, files)
      ensures forall name :: name in names <==> name in entries && HasName(files, name)
    {
      names := [];
      for i := 0 to |entries|
        invariant forall name :: name in names <==> name in entries[..i] && HasName(files, name)
      {
        if HasName(files, entries[i]) {
          names := names + [entries[i]];
        }
      }
      assert entries[..|entries|] == entries;
      assert names != [] ==> names[0] in names;
      assert forall e :: e in entries && HasName(files, e) ==> e in names;
    }

    /** The uploads of one attempt, in the order in which they complete. */
    method Upload(dir: string, entries: seq<string>, done: map<string, Processed>, work: seq<Work>, ghost from: State)
      returns (completed: map<string, Processed>)
      requires Reaches(from, View(Some(Session(dir, entries, files, done, Working))))
      requires forall w <- work :: w.Uploaded? ==> w.result.file.filename == w.name
      requires dir in disk
      modifies this`disk
      ensures Reaches(from, View(Some(Session(dir, entries, files, completed, Working))))
      ensures dir in disk && disk == old(disk)[dir := disk[dir]]
      ensures completed == Completed(entries, done, work)
    {
      completed := done;
      for i := 0 to |work|
        invariant Reaches(from, View(Some(Session(dir, entries, files, completed, Working))))
        invariant dir in disk && disk == old(disk)[dir := disk[dir]]
        invariant completed == Completed(entries, done, work[..i])
      {
        assert work[..i + 1][..i] == work[..i];
        ghost var here := View(Some(Session(dir, entries, files, completed, Working)));
        assert work[i] in work;
        match work[i] {
          case Uploaded(name, result) =>
            if name in entries && name !in completed {
              ReachesStep(from, here, Processes(name, result));
              completed := completed[name := result];
            }
          case Written =>
            ReachesStep(from, here, WritesCheckpoint);
            disk := disk[dir := Checkpoint(dir, entries, id, completed)];
        }
      }
      assert work[..|work|] == work;
    }

    /** A checkpoint is there and all its results are in the transfer. */
    predicate IsFinalized(dir: string, entries: seq<string>)
      reads this
    {
      dir in disk && AlreadyIn(entries, disk[dir].completed, files)
    }

    /** The record this attempt ends with. */
    function CompletedWith(dir: string, entries: seq<string>, work: seq<Work>): map<string, Processed>
      reads this
    {
      Completed(entries, CompletedIn(disk, dir), work)
    }

    /** From the counted results to the saved transfer and the removed checkpoint. */
    method Finalize(dir: string, entries: seq<string>, completed: map<string, Processed>,
                    arrange: seq<File> -> seq<File>, fate: Fate, ghost from: State)
      returns (outcome: Outcome)
      requires Reaches(from, View(Some(Session(dir, entries, files, completed, Working))))
      requires dir in disk && disk[dir] == Checkpoint(dir, entries, id, completed)
      requires forall list :: Keys(arrange(list)) == Keys(list)
      modifies this
      ensures Reaches(from, View(None))
      ensures outcome.Incomplete? <==> !AllDone(entries, completed)
      ensures !outcome.Incomplete? ==>
        && appended == old(appended) + [Batch(dir, Results(entries, completed))]
        && files == arrange(old(files) + Results(entries, completed))
      ensures outcome.Incomplete? ==> appended == old(appended) && files == old(files)
      ensures outcome == Incomplete || outcome == Returned(|entries|) || (fate.diesSaved && outcome == Died)
      ensures disk == if outcome.Returned? && !fate.removeFails then old(disk) - {dir} else old(disk)
    {
      ghost var working := View(Some(Session(dir, entries, files, completed, Working)));
      if !AllDone(entries, completed) {
        ReachesStep(from, working, Ends);
        return Incomplete;
      }
      var added := Results(entries, completed);
      var merged := arrange(files + added);
      KeysConcat(files, added);
      ghost var base := files;
      ReachesStep(from, working, Saves(merged));
      files := merged;
      appended := appended + [Batch(dir, added)];
      saved := saved + {dir};
      ghost var done := View(Some(Session(dir, entries, base, completed, Saved)));
      if fate.diesSaved {
        ReachesStep(from, done, Ends);
        return Died;
      }
      ReachesStep(from, done, Removes(!fate.removeFails));
      if !fate.removeFails {
        disk := disk - {dir};
        saved := saved - {dir};
      }
      returned := returned + [Reply(dir, |entries|)];
      return Returned(|entries|);
    }

    /** Only the cleaning up of a checkpoint whose results are all in the transfer. */
    method CleanUpStale(dir: string, entries: seq<string>, completed: map<string, Processed>, fate: Fate,
                        ghost from: State)
      returns (outcome: Outcome)
      requires Reaches(from, View(Some(Session(dir, entries, files, completed, Finalized))))
      modifies this`disk, this`returned, this`saved
      ensures Reaches(from, View(None))
      ensures outcome == Returned(0) || (fate.diesSaved && outcome == Died)
      ensures disk == if outcome.Returned? && !fate.removeFails then old(disk) - {dir} else old(disk)
    {
      ghost var here := View(Some(Session(dir, entries, files, completed, Finalized)));
      if fate.diesSaved {
        ReachesStep(from, here, Ends);
        return Died;
      }
      ReachesStep(from, here, Removes(!fate.removeFails));
      if !fate.removeFails {
        disk := disk - {dir};
        saved := saved - {dir};
      }
      returned := returned + [Reply(dir, 0)];
      return Returned(0);
    }

    /** The uploads and the save, with the checkpoint on disk. */
    method Continue(dir: string, entries: seq<string>, done: map<string, Processed>, arrange: seq<File> -> seq<File>,
                    fate: Fate, ghost from: State)
      returns (outcome: Outcome)
      requires dir in disk && Reaches(from, View(Some(Session(dir, entries, files, done, Working))))
      requires forall list :: Keys(arrange(list)) == Keys(list)
      requires forall w <- fate.work :: w.Uploaded? ==> w.result.file.filename == w.name
      modifies this
      ensures Reaches(from, View(None))
      ensures outcome == Incomplete || outcome == Returned(|entries|) || outcome == Died
      ensures outcome.Died? ==> fate.diesWorking || fate.diesSaved
      ensures !outcome.Died? ==>
        Settles(old(View(None)), View(None), dir, entries, Completed(entries, done, fate.work), arrange, fate, outcome)
      ensures outcome.Died? && !fate.diesSaved ==> files == old(files)
    {
      var completed := Upload(dir, entries, done, fate.work, from);
      ghost var worked := View(Some(Session(dir, entries, files, completed, Working)));
      if fate.diesWorking {
        ReachesStep(from, worked, Ends);
        return Died;
      }
      // The awaited queue has written every completed result.
      ReachesStep(from, worked, WritesCheckpoint);
      disk := disk[dir := Checkpoint(dir, entries, id, completed)];
      outcome := Finalize(dir, entries, completed, arrange, fate, from);
    }

    /** From the first write of the checkpoint on. */
    method Work(dir: string, entries: seq<string>, arrange: seq<File> -> seq<File>, fate: Fate, ghost from: State)
      returns (outcome: Outcome)
      requires from == View(None)
      requires Reaches(from, Begin(from, true, dir, entries))
      requires !Refuses(from, dir, entries) && !NamesClash(entries, files)
      requires !IsFinalized(dir, entries)
      requires forall list :: Keys(arrange(list)) == Keys(list)
      requires forall w <- fate.work :: w.Uploaded? ==> w.result.file.filename == w.name
      modifies this
      ensures Reaches(from, View(None))
      ensures outcome == Incomplete || outcome == Returned(|entries|) || outcome == Died
      ensures outcome.Died? ==> (fate.diesFirst && dir !in old(disk)) || fate.diesWorking || fate.diesSaved
      ensures !outcome.Died? ==>
        Settles(old(View(None)), View(None), dir, entries,
                old(CompletedWith(dir, entries, fate.work)), arrange, fate, outcome)
      ensures outcome.Died? && !fate.diesSaved ==> files == old(files)
    {
      var completed := CompletedIn(disk, dir);
      if dir !in disk {
        ghost var starting := View(Some(Session(dir, entries, files, completed, Starting)));
        if fate.diesFirst {
          ReachesStep(from, starting, Ends);
          return Died;
        }
        ReachesStep(from, starting, WritesCheckpoint);
        disk := disk[dir := Checkpoint(dir, entries, id, completed)];
      }
      outcome := Continue(dir, entries, completed, arrange, fate, from);
    }

    /** `alive` is what looking the transfer up finds: there and not expired. */
    method AppendToTransfer(alive: bool, dir: string, entries: seq<string>, arrange: seq<File> -> seq<File>, fate: Fate)
      returns (outcome: Outcome)
      requires Listing(entries)
      requires forall list :: Keys(arrange(list)) == Keys(list)
      requires forall w <- fate.work :: w.Uploaded? ==> w.result.file.filename == w.name
      modifies this
      ensures Reaches(old(View(None)), View(None))
      ensures outcome.NotFound? <==> !alive
      ensures outcome.Mismatch? <==> alive && Refuses(old(View(None)), dir, entries)
      ensures outcome.NotFound? || outcome.Mismatch? || outcome.Conflict? ==> View(None) == old(View(None))
      ensures outcome.Conflict? ==>
        outcome.names != [] && forall name :: name in outcome.names <==> name in entries && HasName(old(files), name)
      ensures outcome.Conflict? <==>
        && alive && !Refuses(old(View(None)), dir, entries)
        && !old(IsFinalized(dir, entries)) && NamesClash(entries, old(files))
      ensures outcome == Returned(0) ==> old(IsFinalized(dir, entries))
      ensures outcome == Returned(0) ==>
        files == old(files) && disk == if fate.removeFails then old(disk) else old(disk) - {dir}
      ensures outcome == Returned(|entries|) || outcome.Incomplete? ==>
        Settles(old(View(None)), View(None), dir, entries,
                old(CompletedWith(dir, entries, fate.work)), arrange, fate, outcome)
      ensures outcome.Returned? ==> outcome.addedCount == 0 || outcome.addedCount == |entries|
      ensures outcome.Died? ==> fate.diesFirst || fate.diesWorking || fate.diesSaved
      ensures Answers(old(View(None)), alive, dir, entries, outcome)
      ensures outcome == Returned(|entries|) || outcome.Incomplete? ==>
        Adds(old(View(None)), files, dir, entries, old(CompletedWith(dir, entries, fate.work)), arrange, fate.work,
             outcome)
      ensures outcome.Died? && !fate.diesSaved ==> files == old(files)
    {
      ghost var from := View(None);
      ReachesItself(from);
      if !alive {
        return NotFound;
      }
      if dir in disk && (disk[dir].dir != dir || disk[dir].transferId != id || disk[dir].entries != entries) {
        return Mismatch;
      }
      ReachesStep(from, from, Begins(true, dir, entries));
      if IsFinalized(dir, entries) {
        outcome := CleanUpStale(dir, entries, disk[dir].completed, fate, from);
        return;
      }
      var names := DuplicateNames(entries);
      if names != [] {
        return Conflict(names);
      }
      outcome := Work(dir, entries, arrange, fate, from);
      if !outcome.Died? {
        SettlingAdds(from, View(None), dir, entries, arrange, fate, outcome);
      }
    }
  }
}
