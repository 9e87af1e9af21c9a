/**
 * The body of `uploadWordMediaFiles` (scripts/words-media-ops.ts), with the disk
 * and the object store as fields it writes step by step.  One call is one
 * attempt, `Fate` says where its process dies, if it does.
 */
module WordsMediaCli {
  import opened Basics
  import opened WordsMedia

  /** What can happen while uploads are running, for an entry of the plan or the queued checkpoint write. */
  datatype Work = Stored(index: nat) | Recorded(index: nat) | Written

  datatype Fate = Fate(diesFirst: bool, work: seq<Work>, diesWorking: bool, removeFails: bool, diesRemoved: bool)

  /** `existing` is what the attempt found in the store when it began. */
  datatype Reply = Done(outcome: Outcome, existing: set<string>) | Mismatch | Collision(files: seq<string>)
    | Incomplete | Died

  /** What was recorded stays, and the rest is the upload of some entry of the plan. */
  ghost predicate RecordedNow(env: Env, start: Checkpoint, completed: map<string, Uploaded>) {
    && (forall file <- start.completed :: file in completed && completed[file] == start.completed[file])
    && forall file <- completed :: file in start.completed ||
        exists e <- start.uploads :: e.file == file && completed[file] == UploadedOf(env, e)
  }

  /** The whole plan is recorded, and these are its records in order. */
  ghost predicate Answers(env: Env, start: Checkpoint, completed: map<string, Uploaded>, outcome: Outcome) {
    && RecordedNow(env, start, completed)
    && |Ordered(start.uploads, completed)| == |start.uploads|
    && outcome == Outcome(Ordered(start.uploads, completed), start.skipped)
  }

  /** On a checkpoint of the plan frozen at `frozen`, that is what an uninterrupted run returns. */
  lemma AnswersAreExpected(env: Env, start: Checkpoint, completed: map<string, Uploaded>, outcome: Outcome,
                           command: Command, frozen: set<string>)
    requires Answers(env, start, completed, outcome) && PlanOf(env, start, command, frozen)
    ensures outcome == Expected(env, command.files, frozen, command.force)
  {
    forall i | 0 <= i < |start.uploads|
      ensures outcome.uploaded[i] == UploadedOf(env, start.uploads[i])
    {
      var file := start.uploads[i].file;
      PlanMember(env, command.files, frozen, command.force, start.uploads[i]);
      if file !in start.completed {
        var e :| e in start.uploads && e.file == file && completed[file] == UploadedOf(env, e);
        PlanMember(env, command.files, frozen, command.force, e);
      }
    }
  }

  /** The store and the record after the work: an entry is recorded once it is stored, and only once. */
  function Uploading(env: Env, uploads: seq<Entry>, objects: set<string>, completed: map<string, Uploaded>,
                     work: seq<Work>)
    : (set<string>, map<string, Uploaded>)
  {
    if work == [] then (objects, completed)
    else
      var (stored, recorded) := Uploading(env, uploads, objects, completed, work[..|work| - 1]);
      match work[|work| - 1]
      case Stored(k) =>
        if k < |uploads| && uploads[k].file !in recorded then (stored + {uploads[k].r2Filename}, recorded)
        else (stored, recorded)
      case Recorded(k) =>
        if k < |uploads| && uploads[k].file !in recorded && uploads[k].r2Filename in stored then
          (stored, recorded[uploads[k].file := UploadedOf(env, uploads[k])])
        else (stored, recorded)
      case Written => (stored, recorded)
  }

  lemma {:induction false} UploadingRecords(env: Env, c: Checkpoint, objects: set<string>, work: seq<Work>)
    ensures var (stored, recorded) := Uploading(env, c.uploads, objects, c.completed, work);
      && RecordedNow(env, c, recorded)
      && objects <= stored <= objects + Names(c.uploads)
      && (c.uploads == [] ==> stored == objects && recorded == c.completed)
  {
    if work != [] {
      UploadingRecords(env, c, objects, work[..|work| - 1]);
    }
  }

  /** The work stores this entry of the plan, and records it later. */
  ghost predicate StoredThenRecorded(work: seq<Work>, k: nat) {
    exists i, j :: 0 <= i < j < |work| && work[i] == Stored(k) && work[j] == Recorded(k)
  }

  /** An entry whose storing is in the work is in the store, unless it was recorded before. */
  ghost predicate StoredOrRecorded(uploads: seq<Entry>, work: seq<Work>, stored: set<string>,
                                   recorded: map<string, Uploaded>) {
    forall i, k :: 0 <= i < |work| && 0 <= k < |uploads| && work[i] == Stored(k) ==>
      uploads[k].r2Filename in stored || uploads[k].file in recorded
  }

  /** Stored and then recorded work is recorded; and if all that is recorded was stored, it still is. */
  lemma {:induction false} UploadingCompletes(env: Env, c: Checkpoint, objects: set<string>, work: seq<Work>)
    ensures var (stored, recorded) := Uploading(env, c.uploads, objects, c.completed, work);
      && StoredOrRecorded(c.uploads, work, stored, recorded)
      && (forall k :: 0 <= k < |c.uploads| && StoredThenRecorded(work, k) ==> c.uploads[k].file in recorded)
      && (forall file <- recorded :: file in c.completed ||
            exists k :: 0 <= k < |c.uploads| && c.uploads[k].file == file && Recorded(k) in work)
  {
    if work != [] {
      var front, last := work[..|work| - 1], work[|work| - 1];
      UploadingCompletes(env, c, objects, front);
      assert work == front + [last];
      var (stored, recorded) := Uploading(env, c.uploads, objects, c.completed, work);
      forall k | 0 <= k < |c.uploads| && StoredThenRecorded(work, k)
        ensures c.uploads[k].file in recorded
      {
        var i, j :| 0 <= i < j < |work| && work[i] == Stored(k) && work[j] == Recorded(k);
        assert front[i] == Stored(k);
        if j < |front| {
          assert front[j] == Recorded(k) && StoredThenRecorded(front, k);
        }
      }
    }
  }

  /** While no two entries share a file, what is recorded is in the store. */
  lemma {:induction false} UploadingStoresFirst(env: Env, c: Checkpoint, objects: set<string>, work: seq<Work>)
    requires StoredFirst(c, objects)
    requires forall e, f :: e in c.uploads && f in c.uploads && e.file == f.file ==> e == f
    ensures var (stored, recorded) := Uploading(env, c.uploads, objects, c.completed, work);
      objects <= stored && StoredFirst(c.(completed := recorded), stored)
  {
    if work != [] {
      UploadingStoresFirst(env, c, objects, work[..|work| - 1]);
    }
  }

  /** What an attempt begins with: the checkpoint on disk, or a new plan. */
  function CheckpointFor(env: Env, s: State, command: Command): Checkpoint {
    if s.disk.Some? then s.disk.value
    else
      Checkpoint(command, Plan(env, command.files, s.objects, command.force),
                 Skips(env, command.files, s.objects, command.force), map[])
  }

  /** What an attempt that is not killed makes of its checkpoint. */
  ghost predicate Settles(env: Env, s: State, t: State, c: Checkpoint, fate: Fate, reply: Reply) {
    var (stored, recorded) := Uploading(env, c.uploads, s.objects, c.completed, fate.work);
    && t.objects == stored
    && (reply.Incomplete? <==> exists e <- c.uploads :: e.file !in recorded)
    && (reply.Done? ==> reply.outcome == Outcome(Ordered(c.uploads, recorded), c.skipped))
    && t.disk == if reply.Done? && !fate.removeFails then None else Some(c.(completed := recorded))
  }

  /** What is in the store after a first attempt that returned: what was there, and what it lists as uploaded. */
  ghost predicate StoresListed(before: set<string>, after: set<string>, outcome: Outcome) {
    forall name :: name in after <==> name in before || exists u <- outcome.uploaded :: u.filename == name
  }

  lemma NamesAreListed(env: Env, plan: seq<Entry>, name: string)
    ensures name in Names(plan) <==> exists u <- Uploads(env, plan) :: u.filename == name
  {
    if name in Names(plan) {
      var i :| 0 <= i < |plan| && plan[i].r2Filename == name;
      assert Uploads(env, plan)[i] in Uploads(env, plan);
    }
  }

  lemma OneEntryPerFile(env: Env, files: seq<string>, existing: set<string>, force: bool)
    ensures var plan := Plan(env, files, existing, force);
      forall e, f :: e in plan && f in plan && e.file == f.file ==> e == f
  {
    forall e, f | e in Plan(env, files, existing, force) && f in Plan(env, files, existing, force) && e.file == f.file
      ensures e == f
    {
      PlanMember(env, files, existing, force, e);
      PlanMember(env, files, existing, force, f);
    }
  }

  /** A whole plan recorded from nothing has been stored, and nothing else. */
  lemma FirstAttemptStores(env: Env, c: Checkpoint, objects: set<string>, work: seq<Work>)
    requires c.completed == map[]
    requires forall e, f :: e in c.uploads && f in c.uploads && e.file == f.file ==> e == f
    ensures var (stored, recorded) := Uploading(env, c.uploads, objects, c.completed, work);
      (forall e <- c.uploads :: e.file in recorded) ==> stored == objects + Names(c.uploads)
  {
    UploadingRecords(env, c, objects, work);
    UploadingStoresFirst(env, c, objects, work);
  }

  lemma FirstAttemptLists(env: Env, s: State, t: State, command: Command, fate: Fate, reply: Reply)
    requires s.disk.None? && Settles(env, s, t, CheckpointFor(env, s, command), fate, reply) && reply.Done?
    requires reply.outcome == Expected(env, command.files, s.objects, command.force)
    ensures StoresListed(s.objects, t.objects, reply.outcome)
  {
    var c := CheckpointFor(env, s, command);
    OneEntryPerFile(env, command.files, s.objects, command.force);
    FirstAttemptStores(env, c, s.objects, fate.work);
    forall name
      ensures name in t.objects <==> name in s.objects || exists u <- reply.outcome.uploaded :: u.filename == name
    {
      NamesAreListed(env, c.uploads, name);
    }
  }

  class Uploader {
    const env: Env
    var objects: set<string>
    var disk: Option<Checkpoint>
    ghost var returned: seq<Outcome>
    ghost var forgot: bool

    ghost function View(session: Option<Session>): State
      reads this
    {
      State(objects, disk, session, returned, forgot)
    }

    /** The names a batch of files takes in the store. */
    function NamesOf(files: seq<string>): set<string> {
      if files == [] then {} else NamesOf(files[..|files| - 1]) + {env.r2Name(files[|files| - 1])}
    }

    lemma {:induction false} NamesMember(files: seq<string>, name: string)
      ensures name in NamesOf(files) <==> exists k :: 0 <= k < |files| && env.r2Name(files[k]) == name
    {
      if files != [] {
        var front := files[..|files| - 1];
        NamesMember(front, name);
        assert forall k :: 0 <= k < |front| ==> front[k] == files[k];
      }
    }

    /** A later file takes the name of an earlier one. */
    ghost predicate IsRepeat(files: seq<string>, file: string) {
      exists k, i :: 0 <= k < i < |files| && files[i] == file && env.r2Name(files[k]) == env.r2Name(file)
    }

    /** These are the files that do. */
    ghost predicate AreRepeats(files: seq<string>, colliding: seq<string>) {
      forall file :: file in colliding <==> IsRepeat(files, file)
    }

    lemma RepeatNext(files: seq<string>, i: nat, file: string)
      requires i < |files|
      ensures IsRepeat(files[..i + 1], file) <==>
        IsRepeat(files[..i], file) || (file == files[i] && env.r2Name(file) in NamesOf(files[..i]))
    {
      var next, front := files[..i + 1], files[..i];
      assert next == front + [files[i]];
      NamesMember(front, env.r2Name(files[i]));
      if IsRepeat(next, file) {
        var k, j :| 0 <= k < j < |next| && next[j] == file && env.r2Name(next[k]) == env.r2Name(file);
        assert front[k] == next[k];
      }
      if IsRepeat(front, file) {
        var k, j :| 0 <= k < j < i && front[j] == file && env.r2Name(front[k]) == env.r2Name(file);
        assert next[k] == front[k] && next[j] == file;
      }
      if file == files[i] && env.r2Name(file) in NamesOf(front) {
        var k :| 0 <= k < i && env.r2Name(front[k]) == env.r2Name(file);
        assert next[k] == front[k] && next[i] == file;
      }
    }

    lemma RepeatsNext(files: seq<string>, i: nat, colliding: seq<string>)
      requires i < |files| && AreRepeats(files[..i], colliding)
      ensures AreRepeats(files[..i + 1],
                         if env.r2Name(files[i]) in NamesOf(files[..i]) then colliding + [files[i]] else colliding)
    {
      forall file
        ensures IsRepeat(files[..i + 1], file) <==>
          IsRepeat(files[..i], file) || (file == files[i] && env.r2Name(file) in NamesOf(files[..i]))
      {
        RepeatNext(files, i, file);
      }
    }

    lemma RepeatsAreCollisions(files: seq<string>, colliding: seq<string>)
      requires AreRepeats(files, colliding)
      ensures colliding != [] <==> Collides(env, files)
    {
      if Collides(env, files) {
        var k, i :| 0 <= k < i < |files| && env.r2Name(files[k]) == env.r2Name(files[i]);
        assert IsRepeat(files, files[i]);
      }
      if colliding != [] {
        assert colliding[0] in colliding;
        var k, i :| 0 <= k < i < |files| && files[i] == colliding[0]
                    && env.r2Name(files[k]) == env.r2Name(colliding[0]);
      }
    }

    /** The planning loop: later files whose name is already taken in this batch are reported, not planned. */
    method PlanUploads(files: seq<string>, existing: set<string>, force: bool)
      returns (plan: seq<Entry>, skipped: seq<string>, colliding: seq<string>)
      ensures colliding != [] <==> Collides(env, files)
      ensures AreRepeats(files, colliding)
      ensures colliding == [] ==>
        plan == Plan(env, files, existing, force) && skipped == Skips(env, files, existing, force)
      ensures colliding == [] ==>
        PlansListed(env, files, existing, force, plan) && SkipsExisting(env, files, existing, force, skipped)
    {
      var images, rawFiles: seq<Entry> := [], [];
      var batch: set<string> := {};
      skipped, colliding := [], [];
      for i := 0 to |files|
        invariant batch == NamesOf(files[..i])
        invariant AreRepeats(files[..i], colliding)
        invariant colliding == [] ==>
          && images == Lane(env, files[..i], existing, force, true)
          && rawFiles == Lane(env, files[..i], existing, force, false)
          && skipped == Skips(env, files[..i], existing, force)
      {
        var name := env.r2Name(files[i]);
        PlanNext(files, i, existing, force);
        RepeatsNext(files, i, colliding);
        if name in batch {
          colliding := colliding + [files[i]];
        } else {
          images, rawFiles, skipped := Place(files[i], existing, force, images, rawFiles, skipped);
        }
        batch := batch + {name};
      }
      assert files[..|files|] == files;
      plan := images + rawFiles;
      PlanIsListed(env, files, existing, force);
      SkipsAreExisting(env, files, existing, force);
      RepeatsAreCollisions(files, colliding);
    }

    /** A file whose name is new in this batch is skipped, or planned in its lane. */
    method Place(file: string, existing: set<string>, force: bool,
                 images: seq<Entry>, rawFiles: seq<Entry>, skipped: seq<string>)
      returns (nextImages: seq<Entry>, nextRaw: seq<Entry>, nextSkipped: seq<string>)
      ensures var skip, entry := IsSkipped(env, file, existing, force), [EntryOf(env, file, existing)];
        && nextImages == images + (if !skip && env.isImage(file) then entry else [])
        && nextRaw == rawFiles + (if !skip && !env.isImage(file) then entry else [])
        && nextSkipped == skipped + (if skip then [env.r2Name(file)] else [])
    {
      nextImages, nextRaw, nextSkipped := images, rawFiles, skipped;
      var name := env.r2Name(file);
      var present := name in existing;
      if present && !force {
        nextSkipped := skipped + [name];
      } else if env.isImage(file) {
        nextImages := images + [Entry(file, name, present, true)];
      } else {
        nextRaw := rawFiles + [Entry(file, name, present, false)];
      }
    }

    /** What the next file adds to the two lanes and the skipped names. */
    lemma PlanNext(files: seq<string>, i: nat, existing: set<string>, force: bool)
      requires i < |files|
      ensures var file, skip := files[i], IsSkipped(env, files[i], existing, force);
        var entry := [EntryOf(env, file, existing)];
        && Lane(env, files[..i + 1], existing, force, true)
           == Lane(env, files[..i], existing, force, true) + (if !skip && env.isImage(file) then entry else [])
        && Lane(env, files[..i + 1], existing, force, false)
           == Lane(env, files[..i], existing, force, false) + (if !skip && !env.isImage(file) then entry else [])
        && Skips(env, files[..i + 1], existing, force)
           == Skips(env, files[..i], existing, force) + (if skip then [env.r2Name(file)] else [])
        && NamesOf(files[..i + 1]) == NamesOf(files[..i]) + {env.r2Name(file)}
    {
      assert files[..i + 1][..i] == files[..i];
    }

    /** The uploads of one attempt, in the order in which they happen. */
    method Upload(start: Checkpoint, work: seq<Work>, ghost from: State) returns (c: Checkpoint)
      requires Reaches(env, from, View(Some(Session(start, Working))))
      modifies this`objects, this`disk
      ensures Reaches(env, from, View(Some(Session(c, Working))))
      ensures c == start.(completed := c.completed)
      ensures (objects, c.completed) == Uploading(env, start.uploads, old(objects), start.completed, work)
    {
      c := start;
      for i := 0 to |work|
        invariant Reaches(env, from, View(Some(Session(c, Working))))
        invariant c == start.(completed := c.completed)
        invariant (objects, c.completed) == Uploading(env, start.uploads, old(objects), start.completed, work[..i])
      {
        assert work[..i + 1][..i] == work[..i];
        ghost var here := View(Some(Session(c, Working)));
        match work[i] {
          case Stored(k) =>
            if k < |c.uploads| && c.uploads[k].file !in c.completed {
              ReachesStep(env, from, here, Stores(c.uploads[k]));
              objects := objects + {c.uploads[k].r2Filename};
            }
          case Recorded(k) =>
            if k < |c.uploads| && c.uploads[k].file !in c.completed && c.uploads[k].r2Filename in objects {
              var e := c.uploads[k];
              ReachesStep(env, from, here, Records(e));
              c := c.(completed := c.completed[e.file := UploadedOf(env, e)]);
            }
          case Written =>
            ReachesStep(env, from, here, WritesCheckpoint);
            disk := Some(c);
        }
      }
      assert work[..|work|] == work;
    }

    /** From the counted results to the removed checkpoint and the returned lists. */
    method Finish(c: Checkpoint, existing: set<string>, fate: Fate, ghost from: State) returns (reply: Reply)
      requires Reaches(env, from, View(Some(Session(c, Working)))) && disk == Some(c)
      modifies this`disk, this`returned, this`forgot
      ensures Reaches(env, from, View(None))
      ensures reply.Incomplete? <==> |Ordered(c.uploads, c.completed)| != |c.uploads|
      ensures reply.Done? || reply.Incomplete? || (reply.Died? && fate.diesRemoved)
      ensures reply.Done? ==> reply == Done(Outcome(Ordered(c.uploads, c.completed), c.skipped), existing)
      ensures reply.Done? ==> returned == old(returned) + [reply.outcome]
      ensures disk == if (reply.Done? || reply.Died?) && !fate.removeFails then None else old(disk)
      ensures !reply.Done? ==> returned == old(returned)
    {
      ghost var working := View(Some(Session(c, Working)));
      var ordered := Ordered(c.uploads, c.completed);
      if |ordered| != |c.uploads| {
        ReachesStep(env, from, working, Ends);
        return Incomplete;
      }
      ReachesStep(env, from, working, Deletes(!fate.removeFails));
      if !fate.removeFails {
        disk := None;
      }
      ghost var finished := View(Some(Session(c, Finished)));
      if fate.diesRemoved {
        ReachesStep(env, from, finished, Ends);
        forgot := forgot || (disk.None? && returned == []);
        return Died;
      }
      ReachesStep(env, from, finished, Returns);
      var outcome := Outcome(ordered, c.skipped);
      returned := returned + [outcome];
      return Done(outcome, existing);
    }

    /** The uploads and the return, from a checkpoint on disk. */
    method Resume(c: Checkpoint, existing: set<string>, fate: Fate, ghost from: State) returns (reply: Reply)
      requires Reaches(env, from, View(Some(Session(c, Working)))) && disk == Some(c)
      modifies this
      ensures Reaches(env, from, View(None))
      ensures reply.Done? || reply.Incomplete? || reply.Died?
      ensures !reply.Died? ==> Settles(env, old(View(None)), View(None), c, fate, reply)
      ensures reply.Done? ==> returned == old(returned) + [reply.outcome] && reply.existing == existing
      ensures reply.Done? ==> exists completed :: Answers(env, c, completed, reply.outcome)
      ensures reply.Died? ==> fate.diesWorking || fate.diesRemoved
      ensures !reply.Done? ==> returned == old(returned)
      ensures old(objects) <= objects <= old(objects) + Names(c.uploads)
    {
      var now := c;
      UploadingRecords(env, c, objects, fate.work);
      if c.uploads != [] {
        now := Upload(c, fate.work, from);
        ghost var worked := View(Some(Session(now, Working)));
        if fate.diesWorking {
          ReachesStep(env, from, worked, Ends);
          return Died;
        }
        // The awaited queue has written every completed result.
        ReachesStep(env, from, worked, WritesCheckpoint);
        disk := Some(now);
      }
      reply := Finish(now, existing, fate, from);
      assert reply.Done? ==> Answers(env, c, now.completed, reply.outcome);
    }

    /** A first attempt: the plan is made and frozen in the checkpoint. */
    method Start(command: Command, fate: Fate) returns (reply: Option<Reply>)
      requires command.files != [] && disk.None?
      modifies this
      ensures reply.Some? ==> Reaches(env, old(View(None)), View(None))
      ensures reply == Some(Died) || reply.None? || (reply.Some? && reply.value.Collision?)
      ensures reply == Some(Died) ==> fate.diesFirst
      ensures reply.Some? && reply.value.Collision? <==> Collides(env, command.files)
      ensures reply.Some? && reply.value.Collision? ==> AreRepeats(command.files, reply.value.files)
      ensures reply.Some? ==> View(None) == old(View(None))
      ensures reply.None? ==> disk.Some? && Reaches(env, old(View(None)), View(Some(Session(disk.value, Working))))
      ensures reply.None? ==> disk == Some(CheckpointFor(env, old(View(None)), command))
      ensures objects == old(objects) && returned == old(returned)
    {
      ghost var from := View(None);
      ReachesItself(env, from);
      var plan, skipped, colliding := PlanUploads(command.files, objects, command.force);
      if colliding != [] {
        return Some(Collision(colliding));
      }
      ReachesStep(env, from, from, Begins(command));
      var c := Checkpoint(command, plan, skipped, map[]);
      ghost var starting := View(Some(Session(c, Starting)));
      if fate.diesFirst {
        ReachesStep(env, from, starting, Ends);
        return Some(Died);
      }
      ReachesStep(env, from, starting, WritesCheckpoint);
      disk := Some(c);
      return None;
    }

    method UploadWordMediaFiles(command: Command, fate: Fate) returns (reply: Reply)
      requires command.files != []
      modifies this
      ensures Reaches(env, old(View(None)), View(None))
      ensures reply.Mismatch? <==> old(disk).Some? && old(disk).value.command != command
      ensures reply.Collision? <==> old(disk).None? && Collides(env, command.files)
      ensures reply.Mismatch? || reply.Collision? ==> View(None) == old(View(None))
      ensures reply.Done? || reply.Incomplete? ==>
        Settles(env, old(View(None)), View(None), CheckpointFor(env, old(View(None)), command), fate, reply)
      ensures reply.Done? ==> returned == old(returned) + [reply.outcome] && reply.existing == old(objects)
      ensures reply.Done? ==> forall frozen ::
        (if old(disk).Some? then PlanOf(env, old(disk).value, command, frozen) else frozen == old(objects)) ==>
          && reply.outcome == Expected(env, command.files, frozen, command.force)
          && IsListing(env, command.files, frozen, command.force, reply.outcome)
      ensures reply.Done? && old(disk).None? ==>
        && IsListing(env, command.files, old(objects), command.force, reply.outcome)
        && StoresListed(old(objects), objects, reply.outcome)
      ensures (forall k :: 0 <= k < |CheckpointFor(env, old(View(None)), command).uploads| ==>
                 StoredThenRecorded(fate.work, k)) ==> !reply.Incomplete?
      ensures reply.Collision? ==> AreRepeats(command.files, reply.files)
      ensures reply.Died? ==> fate.diesFirst || fate.diesWorking || fate.diesRemoved
      ensures !reply.Done? ==> returned == old(returned)
      ensures old(objects) <= objects
    {
      ghost var from := View(None);
      var existing := objects;
      if disk.Some? {
        if disk.value.command != command {
          ReachesItself(env, from);
          return Mismatch;
        }
        ReachesItself(env, from);
        ReachesStep(env, from, from, Begins(command));
      } else {
        var stopped := Start(command, fate);
        if stopped.Some? {
          return stopped.value;
        }
      }
      ghost var start := disk.value;
      reply := Resume(disk.value, existing, fate, from);
      forall frozen | reply.Done? && PlanOf(env, start, command, frozen)
        ensures reply.outcome == Expected(env, command.files, frozen, command.force)
        ensures IsListing(env, command.files, frozen, command.force, reply.outcome)
      {
        var completed :| Answers(env, start, completed, reply.outcome);
        AnswersAreExpected(env, start, completed, reply.outcome, command, frozen);
        ExpectedIsListing(env, command.files, frozen, command.force);
      }
      UploadingCompletes(env, start, existing, fate.work);
      if reply.Done? && from.disk.None? {
        FirstAttemptLists(env, from, View(None), command, fate, reply);
      }
    }
  }
}
