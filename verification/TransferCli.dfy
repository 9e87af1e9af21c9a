/**
 * The body of `createTransfer` (scripts/transfer-ops.ts), with the disk, the
 * object store and the catalogue as fields it writes step by step.  One call is
 * one attempt: `Fate` says where its process dies, if it does, and in which
 * order its concurrent uploads complete and write the checkpoint.
 */
module TransferCli {
  import opened Basics
  import opened TransferCreate
  import opened TransferFiles

  datatype Fate = Fate(diesFirst: bool, work: seq<Work>, diesWorking: bool, now: int, diesSaved: bool,
                        removeFails: bool)

  datatype Outcome = Created(transfer: Transfer) | Mismatch | Incomplete | Expired | Died

  /** What an attempt that is not killed comes to, once everything it uploads is recorded. */
  function Finished(entries: seq<string>, identity: Identity, completed: map<string, Processed>,
                    arrange: seq<File> -> seq<File>, now: int): Outcome
  {
    if exists e <- entries :: e !in completed then Incomplete
    else if (ExpiresAt(identity) - now) / 1000 <= 0 then Expired
    else Created(Transfer(identity.transferId, identity.title, arrange(Results(entries, completed)),
                          identity.startedAt, ExpiresAt(identity), identity.deleteToken))
  }

  /** The transfer a command stands for: whose it is, and that it lasts `lifetime` seconds from when it was begun. */
  ghost predicate IsTransferOf(t: Transfer, identity: Identity, lifetime: int) {
    && t.id == identity.transferId && t.title == identity.title && t.deleteToken == identity.deleteToken
    && t.createdAt == identity.startedAt
    && t.expiresAt - t.createdAt == 1000 * lifetime
  }

  /** Its files are the results of the entries, one each and in their order, as `arrange` leaves them. */
  ghost predicate HasResults(files: seq<File>, entries: seq<string>, completed: map<string, Processed>,
                             arrange: seq<File> -> seq<File>) {
    exists listed :: ListsResults(listed, entries, completed) && files == arrange(listed)
  }

  /**
   * What one attempt that is not killed comes to: some entry is missing, or less
   * than a second of the lifetime is left, or the transfer is made.
   */
  ghost predicate Comes(outcome: Outcome, before: Option<Checkpoint>, entries: seq<string>, chosen: Identity,
                        work: seq<Work>, completed: map<string, Processed>, arrange: seq<File> -> seq<File>, now: int)
  {
    var identity := if before.Some? then before.value.identity else chosen;
    var done := if before.Some? then before.value.completed else map[];
    var lifetime := if before.Some? && identity.ttlSeconds < 1 then 1 else identity.ttlSeconds;
    && (outcome.Incomplete? <==> exists e <- entries :: IsMissing(e, done, work))
    && (outcome.Expired? <==>
          && (forall e <- entries :: !IsMissing(e, done, work))
          && identity.startedAt + 1000 * lifetime - now < 1000)
    && (outcome.Created? ==>
          && IsTransferOf(outcome.transfer, identity, lifetime)
          && HasResults(outcome.transfer.files, entries, completed, arrange))
  }

  lemma FinishedComes(before: Option<Checkpoint>, entries: seq<string>, chosen: Identity, work: seq<Work>,
                      arrange: seq<File> -> seq<File>, now: int)
    ensures var identity := if before.Some? then Normalised(before.value.identity) else chosen;
      var completed := Completed(entries, if before.Some? then before.value.completed else map[], work);
      var finished := Finished(entries, identity, completed, arrange, now);
      Comes(finished, before, entries, chosen, work, completed, arrange, now)
  {
    var done := if before.Some? then before.value.completed else map[];
    var completed := Completed(entries, done, work);
    MissingIsUnrecorded(entries, done, work);
    if forall e <- entries :: e in completed {
      ResultsAreListed(entries, completed);
    }
  }

  /** How an attempt ends that has written its whole record to the disk: what it answers, saves and leaves there. */
  ghost predicate Ended(before: seq<Transfer>, after: seq<Transfer>, disk: Option<Checkpoint>, c: Checkpoint,
                        arrange: seq<File> -> seq<File>, fate: Fate, outcome: Outcome)
  {
    var finished := Finished(c.entries, c.identity, c.completed, arrange, fate.now);
    && (outcome == finished || (outcome.Died? && fate.diesSaved && finished.Created?))
    && after == before + (if finished.Created? then [finished.transfer] else [])
    && (finished.Created? ==>
          && IsTransferOf(finished.transfer, c.identity, c.identity.ttlSeconds)
          && HasResults(finished.transfer.files, c.entries, c.completed, arrange))
    && disk == if outcome.Created? && !fate.removeFails then None else Some(c)
  }

  class Cli {
    var disk: Option<Checkpoint>
    var processed: seq<string>
    var saved: seq<Transfer>

    ghost function View(session: Option<Session>): State
      reads this
    {
      State(disk, session, processed, saved)
    }

    /** The uploads of one attempt, in the order in which they complete. */
    method Upload(dir: string, entries: seq<string>, identity: Identity, done: map<string, Processed>,
                  work: seq<Work>, ghost from: State)
      returns (completed: map<string, Processed>)
      requires Reaches(from, View(Some(Session(dir, entries, identity, done, Working))))
      modifies this
      ensures Reaches(from, View(Some(Session(dir, entries, identity, completed, Working))))
      ensures saved == old(saved) && completed == Completed(entries, done, work)
    {
      completed := done;
      for i := 0 to |work|
        invariant Reaches(from, View(Some(Session(dir, entries, identity, completed, Working))))
        invariant saved == old(saved) && completed == Completed(entries, done, work[..i])
      {
        assert work[..i + 1][..i] == work[..i];
        ghost var here := View(Some(Session(dir, entries, identity, completed, Working)));
        match work[i] {
          case Uploaded(name, result) =>
            if name in entries && name !in completed {
              ReachesStep(from, here, Processes(name, result));
              processed := processed + [name];
              completed := completed[name := result];
            }
          case Written =>
            ReachesStep(from, here, WritesCheckpoint);
            disk := Some(Checkpoint(dir, entries, identity, completed));
        }
      }
      assert work[..|work|] == work;
    }

    /** The identity of the transfer: that of the checkpoint, if there is one. */
    function IdentityFor(chosen: Identity): Identity
      reads this
    {
      if disk.Some? then Normalised(disk.value.identity) else chosen
    }

    /** The record this attempt ends with. */
    function CompletedWith(entries: seq<string>, work: seq<Work>): map<string, Processed>
      reads this
    {
      Completed(entries, if disk.Some? then disk.value.completed else map[], work)
    }

    method CreateTransfer(dir: string, entries: seq<string>, chosen: Identity, arrange: seq<File> -> seq<File>,
                          fate: Fate)
      returns (outcome: Outcome)
      requires entries != [] && chosen.ttlSeconds >= 1
      requires forall files :: Keys(arrange(files)) == Keys(files)
      modifies this
      ensures Reaches(old(View(None)), View(None))
      ensures outcome.Mismatch? <==>
        old(disk).Some? && (old(disk).value.dir != dir || old(disk).value.entries != entries)
      ensures outcome.Mismatch? ==> View(None) == old(View(None))
      ensures outcome.Died? ==> (fate.diesFirst && old(disk).None?) || fate.diesWorking || fate.diesSaved
      ensures outcome.Created? || outcome.Incomplete? || outcome.Expired? ==>
        var identity, completed := old(IdentityFor(chosen)), old(CompletedWith(entries, fate.work));
        && outcome == Finished(entries, identity, completed, arrange, fate.now)
        && saved == old(saved) + (if outcome.Created? then [outcome.transfer] else [])
        && disk == if outcome.Created? && !fate.removeFails then None
                   else Some(Checkpoint(dir, entries, identity, completed))
      ensures outcome.Created? || outcome.Incomplete? || outcome.Expired? ==>
        Comes(outcome, old(disk), entries, chosen, fate.work, old(CompletedWith(entries, fate.work)), arrange, fate.now)
      ensures (fate.diesFirst && old(disk).None?) || (fate.diesWorking && !outcome.Mismatch?) ==>
        outcome.Died? && saved == old(saved)
      ensures outcome.Died? && !(fate.diesFirst && old(disk).None?) && !fate.diesWorking ==>
        && disk.Some? && |saved| == |old(saved)| + 1 && saved[..|old(saved)|] == old(saved)
        && IsTransferOf(saved[|old(saved)|], disk.value.identity, disk.value.identity.ttlSeconds)
        && HasResults(saved[|old(saved)|].files, entries, disk.value.completed, arrange)
    {
      ghost var from := View(None);
      ReachesItself(from);
      var checkpoint := disk;
      if checkpoint.Some? && (checkpoint.value.dir != dir || checkpoint.value.entries != entries) {
        return Mismatch;
      }
      var identity := if checkpoint.Some? then Normalised(checkpoint.value.identity) else chosen;
      var completed := if checkpoint.Some? then checkpoint.value.completed else map[];
      ReachesStep(from, from, Begins(dir, entries, chosen));
      if checkpoint.None? {
        ghost var starting := View(Some(Session(dir, entries, identity, completed, Starting)));
        if fate.diesFirst {
          ReachesStep(from, starting, Ends);
          return Died;
        }
        ReachesStep(from, starting, WritesCheckpoint);
        disk := Some(Checkpoint(dir, entries, identity, completed));
      }
      outcome := Continue(dir, entries, identity, completed, arrange, fate, from);
      FinishedComes(checkpoint, entries, chosen, fate.work, arrange, fate.now);
    }

    /** The uploads and the save, with the checkpoint on disk. */
    method Continue(dir: string, entries: seq<string>, identity: Identity, done: map<string, Processed>,
                    arrange: seq<File> -> seq<File>, fate: Fate, ghost from: State)
      returns (outcome: Outcome)
      requires Reaches(from, View(Some(Session(dir, entries, identity, done, Working))))
      requires forall files :: Keys(arrange(files)) == Keys(files)
      modifies this
      ensures Reaches(from, View(None))
      ensures fate.diesWorking ==> outcome.Died? && saved == old(saved)
      ensures !fate.diesWorking ==>
        Ended(old(saved), saved, disk, Checkpoint(dir, entries, identity, Completed(entries, done, fate.work)),
              arrange, fate, outcome)
    {
      var completed := Upload(dir, entries, identity, done, fate.work, from);
      ghost var worked := View(Some(Session(dir, entries, identity, completed, Working)));
      if fate.diesWorking {
        ReachesStep(from, worked, Ends);
        return Died;
      }
      // The awaited queue has written every completed result.
      ReachesStep(from, worked, WritesCheckpoint);
      disk := Some(Checkpoint(dir, entries, identity, completed));
      outcome := Finalize(dir, entries, identity, completed, arrange, fate, from);
    }

    /** From the counted results to the saved transfer and the removed checkpoint. */
    method Finalize(dir: string, entries: seq<string>, identity: Identity, completed: map<string, Processed>,
                    arrange: seq<File> -> seq<File>, fate: Fate, ghost from: State)
      returns (outcome: Outcome)
      requires Reaches(from, View(Some(Session(dir, entries, identity, completed, Working))))
      requires disk == Some(Checkpoint(dir, entries, identity, completed))
      requires forall files :: Keys(arrange(files)) == Keys(files)
      modifies this
      ensures Reaches(from, View(None))
      ensures Ended(old(saved), saved, disk, Checkpoint(dir, entries, identity, completed), arrange, fate, outcome)
      ensures outcome.Incomplete? <==> exists e <- entries :: e !in completed
      ensures outcome.Expired? <==>
        (forall e <- entries :: e in completed) && identity.startedAt + 1000 * identity.ttlSeconds - fate.now < 1000
    {
      ghost var working := View(Some(Session(dir, entries, identity, completed, Working)));
      if exists e <- entries :: e !in completed {
        ReachesStep(from, working, Ends);
        return Incomplete;
      }
      ResultsAreListed(entries, completed);
      var files := arrange(Results(entries, completed));
      if (ExpiresAt(identity) - fate.now) / 1000 <= 0 {
        ReachesStep(from, working, Ends);
        return Expired;
      }
      var transfer := Transfer(identity.transferId, identity.title, files, identity.startedAt,
                               ExpiresAt(identity), identity.deleteToken);
      ReachesStep(from, working, Saves(fate.now, files));
      saved := saved + [transfer];
      ghost var done := View(Some(Session(dir, entries, identity, completed, Saved)));
      if fate.diesSaved {
        ReachesStep(from, done, Ends);
        return Died;
      }
      ReachesStep(from, done, Removes(!fate.removeFails));
      if !fate.removeFails {
        disk := None;
      }
      return Created(transfer);
    }
  }
}
