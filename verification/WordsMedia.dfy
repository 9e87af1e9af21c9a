/**
 * `uploadWordMediaFiles` of scripts/words-media-ops.ts as a protocol between
 * one process, the disk and the object store, with a crash possible between any
 * two writes and any number of reruns over the same directory.
 */
module WordsMedia {
  import opened Basics

  /** What the unseen helpers compute from a local name; `describe` is the rest of an upload's record. */
  datatype Env = Env(r2Name: string -> string, isImage: string -> bool, describe: string -> string)

  datatype Entry = Entry(file: string, r2Filename: string, overwrites: bool, isImage: bool)

  datatype Uploaded = Uploaded(original: string, filename: string, overwrote: bool, detail: string)

  datatype Outcome = Outcome(uploaded: seq<Uploaded>, skipped: seq<string>)

  // ---- The plan ----

  function EntryOf(env: Env, file: string, existing: set<string>): Entry {
    Entry(file, env.r2Name(file), env.r2Name(file) in existing, env.isImage(file))
  }

  predicate IsSkipped(env: Env, file: string, existing: set<string>, force: bool) {
    env.r2Name(file) in existing && !force
  }

  /** The planned entries of one lane, in directory order. */
  function Lane(env: Env, files: seq<string>, existing: set<string>, force: bool, image: bool): seq<Entry> {
    if files == [] then []
    else
      var file := files[|files| - 1];
      Lane(env, files[..|files| - 1], existing, force, image)
      + if !IsSkipped(env, file, existing, force) && env.isImage(file) == image
        then [EntryOf(env, file, existing)] else []
  }

  function Skips(env: Env, files: seq<string>, existing: set<string>, force: bool): seq<string> {
    if files == [] then []
    else
      var file := files[|files| - 1];
      Skips(env, files[..|files| - 1], existing, force)
      + if IsSkipped(env, file, existing, force) then [env.r2Name(file)] else []
  }

  /** The images, then the other files. */
  function Plan(env: Env, files: seq<string>, existing: set<string>, force: bool): seq<Entry> {
    Lane(env, files, existing, force, true) + Lane(env, files, existing, force, false)
  }

  ghost predicate Collides(env: Env, files: seq<string>) {
    exists i, j :: 0 <= i < j < |files| && env.r2Name(files[i]) == env.r2Name(files[j])
  }

  function UploadedOf(env: Env, e: Entry): Uploaded {
    Uploaded(e.file, e.r2Filename, e.overwrites, env.describe(e.file))
  }

  function Uploads(env: Env, plan: seq<Entry>): seq<Uploaded> {
    seq(|plan|, i requires 0 <= i < |plan| => UploadedOf(env, plan[i]))
  }

  /** What one uninterrupted run returns when `existing` is what the store holds. */
  function Expected(env: Env, files: seq<string>, existing: set<string>, force: bool): Outcome {
    Outcome(Uploads(env, Plan(env, files, existing, force)), Skips(env, files, existing, force))
  }

  /** The completed entries of the plan, in plan order. */
  function Ordered(plan: seq<Entry>, completed: map<string, Uploaded>): (r: seq<Uploaded>)
    ensures |r| <= |plan|
    ensures |r| == |plan| ==> forall i :: 0 <= i < |plan| ==>
      plan[i].file in completed && r[i] == completed[plan[i].file]
    ensures |r| < |plan| ==> exists i :: 0 <= i < |plan| && plan[i].file !in completed
  {
    if plan == [] then []
    else if plan[0].file in completed then [completed[plan[0].file]] + Ordered(plan[1..], completed)
    else Ordered(plan[1..], completed)
  }

  function Names(plan: seq<Entry>): set<string> {
    set e | e in plan :: e.r2Filename
  }

  /** The store once everything planned on `existing` is there. */
  function After(env: Env, files: seq<string>, existing: set<string>, force: bool): set<string> {
    existing + Names(Plan(env, files, existing, force))
  }

  // ---- The protocol ----

  datatype Command = Command(dir: string, files: seq<string>, force: bool)

  datatype Checkpoint = Checkpoint(command: Command, uploads: seq<Entry>, skipped: seq<string>,
                                   completed: map<string, Uploaded>)

  datatype Phase = Starting | Working | Finished

  datatype Session = Session(checkpoint: Checkpoint, phase: Phase)

  /**
   * `objects` is what listing the store's prefix counts as existing.
   * `forgot`: a crash fell between the removal of the checkpoint and the
   * return, before any call had returned.
   */
  datatype State = State(objects: set<string>, disk: Option<Checkpoint>, session: Option<Session>,
                         returned: seq<Outcome>, forgot: bool)

  datatype Event =
    | Begins(command: Command)
    | WritesCheckpoint
    | Stores(e: Entry)
    | Records(e: Entry)
    | Deletes(ok: bool)
    | Returns
    | Ends

  /** A running command still has to upload this entry. */
  predicate IsPending(s: State, entry: Entry) {
    && s.session.Some? && s.session.value.phase.Working?
    && entry in s.session.value.checkpoint.uploads && entry.file !in s.session.value.checkpoint.completed
  }

  ghost predicate Enabled(s: State, e: Event) {
    match e
    case Begins(command) => s.session.None? && command.files != []
    case WritesCheckpoint => s.session.Some? && !s.session.value.phase.Finished?
    case Stores(entry) => IsPending(s, entry)
    // The object is stored before its result is recorded.
    case Records(entry) => IsPending(s, entry) && entry.r2Filename in s.objects
    case Deletes(_) =>
      && s.session.Some? && s.session.value.phase.Working? && s.disk == Some(s.session.value.checkpoint)
      && |Ordered(s.session.value.checkpoint.uploads, s.session.value.checkpoint.completed)|
         == |s.session.value.checkpoint.uploads|
    case Returns => s.session.Some? && s.session.value.phase.Finished?
    case Ends => s.session.Some?
  }

  /** A mismatch with the checkpoint, or colliding names in a new plan, throws before any write. */
  ghost function Begin(env: Env, s: State, command: Command): State {
    match s.disk
    case Some(c) => if c.command != command then s else s.(session := Some(Session(c, Working)))
    case None =>
      if Collides(env, command.files) then s
      else
        var plan := Plan(env, command.files, s.objects, command.force);
        var skipped := Skips(env, command.files, s.objects, command.force);
        s.(session := Some(Session(Checkpoint(command, plan, skipped, map[]), Starting)))
  }

  ghost function Step(env: Env, s: State, e: Event): State
    requires Enabled(s, e)
  {
    match e
    case Begins(command) => Begin(env, s, command)
    case WritesCheckpoint =>
      s.(disk := Some(s.session.value.checkpoint), session := Some(Session(s.session.value.checkpoint, Working)))
    case Stores(entry) => s.(objects := s.objects + {entry.r2Filename})
    case Records(entry) =>
      var c := s.session.value.checkpoint;
      s.(session := Some(Session(c.(completed := c.completed[entry.file := UploadedOf(env, entry)]), Working)))
    case Deletes(ok) =>
      s.(disk := if ok then None else s.disk, session := Some(Session(s.session.value.checkpoint, Finished)))
    case Returns =>
      var c := s.session.value.checkpoint;
      s.(returned := s.returned + [Outcome(Ordered(c.uploads, c.completed), c.skipped)], session := None)
    case Ends =>
      s.(session := None, forgot := s.forgot || (s.session.value.phase.Finished? && s.disk.None? && s.returned == []))
  }

  ghost predicate ValidRun(env: Env, s: State, events: seq<Event>)
    decreases |events|
  {
    events == [] || (Enabled(s, events[0]) && ValidRun(env, Step(env, s, events[0]), events[1..]))
  }

  ghost function Exec(env: Env, s: State, events: seq<Event>): State
    requires ValidRun(env, s, events)
    decreases |events|
  {
    if events == [] then s else Exec(env, Step(env, s, events[0]), events[1..])
  }

  // ---- Facts about plans ----

  /** What belongs in the plan: a listed file whose name is new, or any listed file with `force`. */
  ghost predicate IsPlanned(env: Env, files: seq<string>, existing: set<string>, force: bool, e: Entry) {
    && e.file in files && (force || env.r2Name(e.file) !in existing)
    && e == Entry(e.file, env.r2Name(e.file), env.r2Name(e.file) in existing, env.isImage(e.file))
  }

  /** The first file stands before the second in the directory. */
  ghost predicate StandsBefore(files: seq<string>, first: string, second: string) {
    exists i, j :: 0 <= i < j < |files| && files[i] == first && files[j] == second
  }

  lemma StandsBeforeNext(files: seq<string>, first: string, second: string)
    requires files != []
    ensures StandsBefore(files[..|files| - 1], first, second) ==> StandsBefore(files, first, second)
    ensures first in files[..|files| - 1] ==> StandsBefore(files, first, files[|files| - 1])
  {
    var front := files[..|files| - 1];
    if StandsBefore(front, first, second) {
      var i, j :| 0 <= i < j < |front| && front[i] == first && front[j] == second;
      assert files[i] == first && files[j] == second;
    }
    if first in front {
      var i :| 0 <= i < |front| && front[i] == first;
      assert files[i] == first;
    }
  }

  lemma {:induction false} LaneMember(env: Env, files: seq<string>, existing: set<string>, force: bool, image: bool,
                                      e: Entry)
    ensures e in Lane(env, files, existing, force, image) <==>
            IsPlanned(env, files, existing, force, e) && e.isImage == image
  {
    if files != [] {
      LaneMember(env, files[..|files| - 1], existing, force, image, e);
      assert files == files[..|files| - 1] + [files[|files| - 1]];
    }
  }

  lemma PlanMember(env: Env, files: seq<string>, existing: set<string>, force: bool, e: Entry)
    ensures e in Plan(env, files, existing, force) <==> IsPlanned(env, files, existing, force, e)
  {
    LaneMember(env, files, existing, force, true, e);
    LaneMember(env, files, existing, force, false, e);
  }

  ghost predicate InDirectoryOrder(files: seq<string>, lane: seq<Entry>) {
    forall i, j :: 0 <= i < j < |lane| ==> StandsBefore(files, lane[i].file, lane[j].file)
  }

  lemma {:induction false} LaneInOrder(env: Env, files: seq<string>, existing: set<string>, force: bool, image: bool)
    ensures InDirectoryOrder(files, Lane(env, files, existing, force, image))
  {
    if files != [] {
      var front := files[..|files| - 1];
      var lane := Lane(env, files, existing, force, image);
      LaneInOrder(env, front, existing, force, image);
      forall i, j | 0 <= i < j < |lane|
        ensures StandsBefore(files, lane[i].file, lane[j].file)
      {
        LaneMember(env, front, existing, force, image, lane[i]);
        StandsBeforeNext(files, lane[i].file, lane[j].file);
      }
    }
  }

  /** All images come before all other files, each kind in directory order. */
  ghost predicate ImagesFirst(env: Env, files: seq<string>, names: seq<string>) {
    forall i, j :: 0 <= i < j < |names| ==>
      || (env.isImage(names[i]) && !env.isImage(names[j]))
      || (env.isImage(names[i]) == env.isImage(names[j]) && StandsBefore(files, names[i], names[j]))
  }

  /** The plan holds exactly what belongs in it, the images first. */
  ghost predicate PlansListed(env: Env, files: seq<string>, existing: set<string>, force: bool, plan: seq<Entry>) {
    && (forall e :: e in plan <==> IsPlanned(env, files, existing, force, e))
    && ImagesFirst(env, files, seq(|plan|, i requires 0 <= i < |plan| => plan[i].file))
  }

  lemma PlanIsListed(env: Env, files: seq<string>, existing: set<string>, force: bool)
    ensures PlansListed(env, files, existing, force, Plan(env, files, existing, force))
  {
    forall e
      ensures e in Plan(env, files, existing, force) <==> IsPlanned(env, files, existing, force, e)
    {
      PlanMember(env, files, existing, force, e);
    }
    var images, others := Lane(env, files, existing, force, true), Lane(env, files, existing, force, false);
    LaneInOrder(env, files, existing, force, true);
    LaneInOrder(env, files, existing, force, false);
    forall i | 0 <= i < |images|
      ensures env.isImage(images[i].file)
    {
      LaneMember(env, files, existing, force, true, images[i]);
    }
    forall i | 0 <= i < |others|
      ensures !env.isImage(others[i].file)
    {
      LaneMember(env, files, existing, force, false, others[i]);
    }
  }

  /** The names skipped are those of the listed files that are in the store, none with `force`. */
  ghost predicate SkipsExisting(env: Env, files: seq<string>, existing: set<string>, force: bool,
                                skipped: seq<string>)
  {
    && (forall f <- files :: !force && env.r2Name(f) in existing ==> env.r2Name(f) in skipped)
    && (forall name <- skipped :: !force && name in existing && exists f <- files :: env.r2Name(f) == name)
    && (forall i, j :: 0 <= i < j < |skipped| ==>
          exists f, g :: StandsBefore(files, f, g) && env.r2Name(f) == skipped[i] && env.r2Name(g) == skipped[j])
  }

  lemma {:induction false} SkipsAreExisting(env: Env, files: seq<string>, existing: set<string>, force: bool)
    ensures SkipsExisting(env, files, existing, force, Skips(env, files, existing, force))
  {
    if files != [] {
      var front, file := files[..|files| - 1], files[|files| - 1];
      var skipped, before := Skips(env, files, existing, force), Skips(env, front, existing, force);
      SkipsAreExisting(env, front, existing, force);
      assert files == front + [file];
      forall i, j | 0 <= i < j < |skipped|
        ensures exists f, g ::
          StandsBefore(files, f, g) && env.r2Name(f) == skipped[i] && env.r2Name(g) == skipped[j]
      {
        if j < |before| {
          var f, g :| StandsBefore(front, f, g) && env.r2Name(f) == before[i] && env.r2Name(g) == before[j];
          StandsBeforeNext(files, f, g);
        } else {
          assert before[i] in before;
          var f :| f in front && env.r2Name(f) == before[i];
          StandsBeforeNext(files, f, file);
        }
      }
    }
  }

  /**
   * What a caller can check of the returned lists.  With `force` every listed
   * file is uploaded and none is skipped; otherwise exactly those are skipped
   * whose names were in the store.  Each record is of its own file and says
   * whether its name was there.
   */
  ghost predicate IsListing(env: Env, files: seq<string>, existing: set<string>, force: bool, outcome: Outcome) {
    && (forall f <- files :: force || env.r2Name(f) !in existing ==> exists u <- outcome.uploaded :: u.original == f)
    && (forall u <- outcome.uploaded ::
          && u.original in files && (force || env.r2Name(u.original) !in existing)
          && u.filename == env.r2Name(u.original) && u.detail == env.describe(u.original)
          && (u.overwrote <==> u.filename in existing))
    && ImagesFirst(env, files, Originals(outcome.uploaded))
    && SkipsExisting(env, files, existing, force, outcome.skipped)
  }

  function Originals(uploaded: seq<Uploaded>): seq<string> {
    seq(|uploaded|, i requires 0 <= i < |uploaded| => uploaded[i].original)
  }

  lemma ExpectedIsListing(env: Env, files: seq<string>, existing: set<string>, force: bool)
    ensures IsListing(env, files, existing, force, Expected(env, files, existing, force))
  {
    var plan, uploaded := Plan(env, files, existing, force), Expected(env, files, existing, force).uploaded;
    SkipsAreExisting(env, files, existing, force);
    PlanIsListed(env, files, existing, force);
    assert Originals(uploaded) == seq(|plan|, i requires 0 <= i < |plan| => plan[i].file);
    forall f | f in files && (force || env.r2Name(f) !in existing)
      ensures exists u <- uploaded :: u.original == f
    {
      var e := Entry(f, env.r2Name(f), env.r2Name(f) in existing, env.isImage(f));
      assert e in plan;
      var i :| 0 <= i < |plan| && plan[i] == e;
      assert uploaded[i] in uploaded;
    }
    assert forall i :: 0 <= i < |uploaded| ==> plan[i] in plan;
  }

  /** A plan made once everything planned is there finds only names that are there. */
  lemma AfterIsStable(env: Env, files: seq<string>, existing: set<string>, force: bool)
    ensures After(env, files, After(env, files, existing, force), force) == After(env, files, existing, force)
  {
    var after := After(env, files, existing, force);
    forall e | e in Plan(env, files, after, force)
      ensures e.r2Filename in after
    {
      PlanMember(env, files, after, force, e);
      var first := EntryOf(env, e.file, existing);
      PlanMember(env, files, existing, force, first);
    }
  }

  /**
   * A run that starts over after everything was uploaded returns the same as
   * the first would have, exactly when the first plan only overwrites.
   */
  lemma StartingOverChangesTheOutcome(env: Env, files: seq<string>, existing: set<string>, force: bool)
    ensures Expected(env, files, After(env, files, existing, force), force) == Expected(env, files, existing, force)
            <==> forall e <- Plan(env, files, existing, force) :: e.overwrites
  {
    var plan := Plan(env, files, existing, force);
    var after := After(env, files, existing, force);
    if forall e <- plan :: e.overwrites {
      forall e | e in plan
        ensures e.r2Filename in existing
      {
        PlanMember(env, files, existing, force, e);
      }
      assert after == existing;
    } else {
      var i :| 0 <= i < |plan| && !plan[i].overwrites;
      var again := Plan(env, files, after, force);
      assert plan[i].r2Filename in after;
      if i < |again| {
        // The same name planned again overwrites what is there by now.
        PlanMember(env, files, after, force, again[i]);
        assert Uploads(env, again)[i] != Uploads(env, plan)[i];
      }
    }
  }

  // ---- The invariant ----

  /** The checkpoint is of the plan frozen when the store held `frozen`. */
  ghost predicate PlanOf(env: Env, c: Checkpoint, command: Command, frozen: set<string>) {
    && c.command == command
    && c.uploads == Plan(env, command.files, frozen, command.force)
    && c.skipped == Skips(env, command.files, frozen, command.force)
    && forall e <- c.uploads :: e.file in c.completed ==> c.completed[e.file] == UploadedOf(env, e)
  }

  /** What is recorded has been stored. */
  ghost predicate StoredFirst(c: Checkpoint, objects: set<string>) {
    forall e <- c.uploads :: e.file in c.completed ==> e.r2Filename in objects
  }

  /** No call has returned yet, and the current plan, or the next one, is that of `frozen`. */
  ghost predicate Pending(env: Env, s: State, command: Command, frozen: set<string>) {
    && frozen <= s.objects <= After(env, command.files, frozen, command.force)
    && (s.disk.Some? ==> PlanOf(env, s.disk.value, command, frozen) && StoredFirst(s.disk.value, s.objects))
    && (s.session.Some? ==>
          PlanOf(env, s.session.value.checkpoint, command, frozen)
          && StoredFirst(s.session.value.checkpoint, s.objects))
    && (s.disk.None? && (s.session.None? || s.session.value.phase.Starting?) ==> s.objects == frozen)
    && (s.session.Some? && s.session.value.phase.Starting? ==> s.disk.None?)
    && (s.session.Some? && s.session.value.phase.Working? ==> s.disk.Some?)
    && (s.session.Some? && s.session.value.phase.Finished? ==>
          |Ordered(s.session.value.checkpoint.uploads, s.session.value.checkpoint.completed)|
          == |s.session.value.checkpoint.uploads|)
  }

  /** Until a call returns its plan is frozen; the first call that returns gives what that plan promises. */
  ghost predicate Inv(env: Env, s: State, command: Command, existing: set<string>) {
    var frozen := if s.forgot then After(env, command.files, existing, command.force) else existing;
    if s.returned == [] then Pending(env, s, command, frozen)
    else
      && s.returned[0] == Expected(env, command.files, frozen, command.force)
      && After(env, command.files, existing, command.force) <= s.objects
  }

  lemma AllStored(env: Env, s: State, command: Command, frozen: set<string>)
    requires Pending(env, s, command, frozen) && s.session.Some? && s.session.value.phase.Finished?
    ensures s.objects == After(env, command.files, frozen, command.force)
    ensures var c := s.session.value.checkpoint;
      Outcome(Ordered(c.uploads, c.completed), c.skipped) == Expected(env, command.files, frozen, command.force)
  {
    var c := s.session.value.checkpoint;
    forall e | e in c.uploads
      ensures e.r2Filename in s.objects
    {
      var i :| 0 <= i < |c.uploads| && c.uploads[i] == e;
    }
    assert Ordered(c.uploads, c.completed) == Uploads(env, c.uploads);
  }

  lemma RecordKeepsPlan(env: Env, c: Checkpoint, command: Command, frozen: set<string>, objects: set<string>, e: Entry)
    requires PlanOf(env, c, command, frozen) && StoredFirst(c, objects) && e in c.uploads && e.r2Filename in objects
    ensures var next := c.(completed := c.completed[e.file := UploadedOf(env, e)]);
      PlanOf(env, next, command, frozen) && StoredFirst(next, objects)
  {
    forall other | other in c.uploads && other.file == e.file
      ensures other == e
    {
      PlanMember(env, command.files, frozen, command.force, other);
      PlanMember(env, command.files, frozen, command.force, e);
    }
  }

  lemma StepKeepsPending(env: Env, s: State, e: Event, command: Command, frozen: set<string>)
    requires Pending(env, s, command, frozen) && Enabled(s, e)
    requires e.Begins? ==> e.command == command
    requires !e.Returns? && (e.Ends? ==> !s.session.value.phase.Finished? || s.disk.Some?)
    ensures Pending(env, Step(env, s, e), command, frozen)
  {
    match e
    case Records(entry) => RecordKeepsPlan(env, s.session.value.checkpoint, command, frozen, s.objects, entry);
    case Begins(_) =>
    case WritesCheckpoint =>
    case Stores(_) =>
    case Deletes(_) =>
    case Returns =>
    case Ends =>
  }

  lemma StepKeepsInv(env: Env, s: State, e: Event, command: Command, existing: set<string>)
    requires Inv(env, s, command, existing) && Enabled(s, e)
    requires e.Begins? ==> e.command == command
    ensures Inv(env, Step(env, s, e), command, existing)
  {
    var frozen := if s.forgot then After(env, command.files, existing, command.force) else existing;
    if s.returned == [] {
      AfterIsStable(env, command.files, existing, command.force);
      if e.Returns? || (e.Ends? && s.session.value.phase.Finished?) {
        AllStored(env, s, command, frozen);
      } else {
        StepKeepsPending(env, s, e, command, frozen);
      }
    }
  }

  ghost predicate SameCommand(events: seq<Event>, command: Command) {
    forall e <- events :: e.Begins? ==> e.command == command
  }

  /** Before the first command: nothing on disk, nothing running, nothing returned. */
  predicate Clean(s: State) {
    s.disk.None? && s.session.None? && s.returned == [] && !s.forgot
  }

  lemma {:induction false} RunKeepsInv(env: Env, s: State, events: seq<Event>, command: Command, existing: set<string>)
    requires Inv(env, s, command, existing) && ValidRun(env, s, events) && SameCommand(events, command)
    ensures Inv(env, Exec(env, s, events), command, existing)
    decreases |events|
  {
    if events != [] {
      StepKeepsInv(env, s, events[0], command, existing);
      RunKeepsInv(env, Step(env, s, events[0]), events[1..], command, existing);
    }
  }

  /**
   * Over any crashes and reruns of one command, the first call that returns
   * gives the lists of one uninterrupted run, in the same order, if and only if
   * no crash fell between removing the checkpoint and returning, or the plan
   * only overwrites.  Everything planned is then in the store.
   */
  lemma FirstReturnIsUninterrupted(env: Env, s: State, events: seq<Event>, command: Command)
    requires Clean(s) && ValidRun(env, s, events) && SameCommand(events, command)
    ensures var t := Exec(env, s, events);
      t.returned != [] ==>
        && After(env, command.files, s.objects, command.force) <= t.objects
        && (t.returned[0] == Expected(env, command.files, s.objects, command.force)
            <==> (!t.forgot || forall e <- Plan(env, command.files, s.objects, command.force) :: e.overwrites))
  {
    RunKeepsInv(env, s, events, command, s.objects);
    StartingOverChangesTheOutcome(env, command.files, s.objects, command.force);
  }

  lemma RunCons(env: Env, s: State, e: Event, rest: seq<Event>, end: State)
    requires Enabled(s, e) && ValidRun(env, Step(env, s, e), rest) && Exec(env, Step(env, s, e), rest) == end
    ensures ValidRun(env, s, [e] + rest) && Exec(env, s, [e] + rest) == end
  {
    assert ([e] + rest)[1..] == rest;
  }

  /** One plain file, named in the store as it is on disk. */
  function PlainEnv(): Env {
    Env(name => name, name => false, name => "")
  }

  const ONE_FILE := Command("photos", ["a"], false)

  const AGAIN := Checkpoint(ONE_FILE, [], ["a"], map[])

  const ENDING := [Deletes(true)] + [Returns]

  const RERUN := [Begins(ONE_FILE)] + ([WritesCheckpoint] + ENDING)

  /** From a written checkpoint without uploads to the empty list. */
  lemma EndReturnsNothing()
    ensures var s := State({"a"}, Some(AGAIN), Some(Session(AGAIN, Working)), [], true);
      && ValidRun(PlainEnv(), s, ENDING)
      && Exec(PlainEnv(), s, ENDING) == State({"a"}, None, None, [Outcome([], ["a"])], true)
  {
    var env := PlainEnv();
    var end := State({"a"}, None, None, [Outcome([], ["a"])], true);
    RunCons(env, State({"a"}, None, Some(Session(AGAIN, Finished)), [], true), Returns, [], end);
    assert [Returns] + [] == [Returns];
    RunCons(env, State({"a"}, Some(AGAIN), Some(Session(AGAIN, Working)), [], true), Deletes(true), [Returns], end);
  }

  lemma BeginAgain()
    ensures Step(PlainEnv(), State({"a"}, None, None, [], true), Begins(ONE_FILE))
            == State({"a"}, None, Some(Session(AGAIN, Starting)), [], true)
  {
    assert Plan(PlainEnv(), ["a"], {"a"}, false) == [] && Skips(PlainEnv(), ["a"], {"a"}, false) == ["a"];
  }

  lemma RerunReturnsNothing()
    ensures var s := State({"a"}, None, None, [], true);
      ValidRun(PlainEnv(), s, RERUN) && Exec(PlainEnv(), s, RERUN) == s.(returned := [Outcome([], ["a"])])
  {
    var env := PlainEnv();
    var end := State({"a"}, None, None, [Outcome([], ["a"])], true);
    EndReturnsNothing();
    BeginAgain();
    RunCons(env, State({"a"}, None, Some(Session(AGAIN, Starting)), [], true), WritesCheckpoint, ENDING, end);
    RunCons(env, State({"a"}, None, None, [], true), Begins(ONE_FILE), [WritesCheckpoint] + ENDING, end);
  }

  const ENTRY := Entry("a", "a", false, false)

  const PLANNED := Checkpoint(ONE_FILE, [ENTRY], [], map[])

  const CRASHED := [WritesCheckpoint] + ([Deletes(true)] + ([Ends] + RERUN))

  /** From the recorded upload: the checkpoint is written, then removed, and the process dies. */
  lemma CrashAfterRemoval()
    ensures var full := PLANNED.(completed := map["a" := UploadedOf(PlainEnv(), ENTRY)]);
      var s := State({"a"}, Some(PLANNED), Some(Session(full, Working)), [], false);
      && ValidRun(PlainEnv(), s, CRASHED)
      && Exec(PlainEnv(), s, CRASHED) == State({"a"}, None, None, [Outcome([], ["a"])], true)
  {
    var env := PlainEnv();
    var full := PLANNED.(completed := map["a" := UploadedOf(env, ENTRY)]);
    var end := State({"a"}, None, None, [Outcome([], ["a"])], true);
    RerunReturnsNothing();
    RunCons(env, State({"a"}, None, Some(Session(full, Finished)), [], false), Ends, RERUN, end);
    var rest := [Ends] + RERUN;
    RunCons(env, State({"a"}, Some(full), Some(Session(full, Working)), [], false), Deletes(true), rest, end);
    RunCons(env, State({"a"}, Some(PLANNED), Some(Session(full, Working)), [], false),
            WritesCheckpoint, [Deletes(true)] + rest, end);
  }

  const UPLOADED := [Stores(ENTRY)] + ([Records(ENTRY)] + CRASHED)

  lemma UploadThenCrash()
    ensures var s := State({}, Some(PLANNED), Some(Session(PLANNED, Working)), [], false);
      && ValidRun(PlainEnv(), s, UPLOADED)
      && Exec(PlainEnv(), s, UPLOADED) == State({"a"}, None, None, [Outcome([], ["a"])], true)
  {
    var env := PlainEnv();
    var s := State({}, Some(PLANNED), Some(Session(PLANNED, Working)), [], false);
    assert s.objects + {"a"} == {"a"};
    var end := State({"a"}, None, None, [Outcome([], ["a"])], true);
    CrashAfterRemoval();
    RunCons(env, State({"a"}, Some(PLANNED), Some(Session(PLANNED, Working)), [], false), Records(ENTRY), CRASHED, end);
    RunCons(env, s, Stores(ENTRY), [Records(ENTRY)] + CRASHED, end);
  }

  const LOSING := [Begins(ONE_FILE)] + ([WritesCheckpoint] + UPLOADED)

  lemma LosingIsOneCommand()
    ensures SameCommand(LOSING, ONE_FILE)
  {}

  /**
   * The window is real: one new file, uploaded, the checkpoint removed, a crash,
   * and a rerun of the same command that returns an empty list.
   */
  lemma CrashAfterRemovalLosesTheList()
    ensures var s := State({}, None, None, [], false);
      && Clean(s) && ValidRun(PlainEnv(), s, LOSING) && SameCommand(LOSING, ONE_FILE)
      && Exec(PlainEnv(), s, LOSING).returned == [Outcome([], ["a"])]
      && Expected(PlainEnv(), ONE_FILE.files, s.objects, ONE_FILE.force).uploaded == [UploadedOf(PlainEnv(), ENTRY)]
  {
    var env := PlainEnv();
    var s := State({}, None, None, [], false);
    assert Plan(env, ["a"], {}, false) == [ENTRY] && Skips(env, ["a"], {}, false) == [];
    var end := State({"a"}, None, None, [Outcome([], ["a"])], true);
    UploadThenCrash();
    RunCons(env, State({}, None, Some(Session(PLANNED, Starting)), [], false), WritesCheckpoint, UPLOADED, end);
    RunCons(env, s, Begins(ONE_FILE), [WritesCheckpoint] + UPLOADED, end);
    LosingIsOneCommand();
  }

  // ---- Composing runs ----

  ghost predicate Reaches(env: Env, s: State, t: State) {
    exists events :: ValidRun(env, s, events) && Exec(env, s, events) == t
  }

  lemma ReachesItself(env: Env, s: State)
    ensures Reaches(env, s, s)
  {
    assert ValidRun(env, s, []) && Exec(env, s, []) == s;
  }

  lemma {:induction false} RunSnoc(env: Env, s: State, events: seq<Event>, e: Event)
    requires ValidRun(env, s, events) && Enabled(Exec(env, s, events), e)
    ensures ValidRun(env, s, events + [e]) && Exec(env, s, events + [e]) == Step(env, Exec(env, s, events), e)
    decreases |events|
  {
    if events == [] {
      assert ValidRun(env, Step(env, s, e), []);
      assert (events + [e])[1..] == [];
    } else {
      RunSnoc(env, Step(env, s, events[0]), events[1..], e);
      assert (events + [e])[1..] == events[1..] + [e];
    }
  }

  lemma ReachesStep(env: Env, s: State, t: State, e: Event)
    requires Reaches(env, s, t) && Enabled(t, e)
    ensures Reaches(env, s, Step(env, t, e))
  {
    var events :| ValidRun(env, s, events) && Exec(env, s, events) == t;
    RunSnoc(env, s, events, e);
  }
}
