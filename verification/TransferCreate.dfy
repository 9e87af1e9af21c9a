/**
 * `createTransfer` of scripts/transfer-ops.ts as a protocol between one process
 * and the disk, with a crash possible between any two writes and any number of
 * reruns.  The tmp-then-rename write of the checkpoint is one step.
 */
module TransferCreate {
  import opened Basics
  import opened TransferFiles

  /** What the first run decides once and for all. */
  datatype Identity = Identity(transferId: string, deleteToken: string, title: string, ttlSeconds: int, startedAt: int)

  datatype Checkpoint = Checkpoint(dir: string, entries: seq<string>, identity: Identity,
                                   completed: map<string, Processed>)

  datatype Transfer = Transfer(id: string, title: string, files: seq<File>, createdAt: int,
                               expiresAt: int, deleteToken: string)

  datatype Phase = Starting | Working | Saved

  /** One running command: `completed` is its in-memory record. */
  datatype Session = Session(dir: string, entries: seq<string>, identity: Identity, completed: map<string, Processed>,
                             phase: Phase)

  /** `processed` and `saved` are what the object store and the catalogue have seen so far. */
  datatype State = State(disk: Option<Checkpoint>, session: Option<Session>, processed: seq<string>,
                         saved: seq<Transfer>)

  datatype Event =
    | Begins(dir: string, entries: seq<string>, chosen: Identity)
    | WritesCheckpoint
    | Processes(name: string, result: Processed)
    | Saves(now: int, files: seq<File>)
    | Removes(ok: bool)
    | Ends

  function CheckpointOf(s: Session): Checkpoint {
    Checkpoint(s.dir, s.entries, s.identity, s.completed)
  }

  predicate AllDone(s: Session) {
    forall e <- s.entries :: e in s.completed
  }

  function ExpiresAt(identity: Identity): int {
    identity.startedAt + identity.ttlSeconds * 1000
  }

  /** A checkpoint read back: `ttlSeconds` is clamped to at least one. */
  function Normalised(identity: Identity): Identity {
    identity.(ttlSeconds := Max(1, identity.ttlSeconds))
  }

  ghost predicate Enabled(s: State, e: Event) {
    match e
    // parseExpiry rejects a lifetime that is not positive, and an empty directory is refused.
    case Begins(_, entries, chosen) => s.session.None? && entries != [] && chosen.ttlSeconds >= 1
    case WritesCheckpoint => s.session.Some? && !s.session.value.phase.Saved?
    case Processes(name, _) =>
      && s.session.Some? && s.session.value.phase.Working?
      && name in s.session.value.entries && name !in s.session.value.completed
    // Every queued checkpoint write is awaited before the results are counted.
    case Saves(now, files) =>
      && s.session.Some? && s.session.value.phase.Working? && AllDone(s.session.value)
      && s.disk == Some(CheckpointOf(s.session.value))
      && (ExpiresAt(s.session.value.identity) - now) / 1000 > 0
      && Keys(files) == Keys(Results(s.session.value.entries, s.session.value.completed))
    case Removes(_) => s.session.Some? && s.session.value.phase.Saved?
    case Ends => s.session.Some?
  }

  /** Reading the checkpoint: a mismatch throws before anything is written. */
  function Begin(s: State, dir: string, entries: seq<string>, chosen: Identity): State {
    match s.disk
    case None => s.(session := Some(Session(dir, entries, chosen, map[], Starting)))
    case Some(c) =>
      if c.dir != dir || c.entries != entries then s
      else s.(session := Some(Session(dir, entries, Normalised(c.identity), c.completed, Working)))
  }

  function TransferOf(session: Session, files: seq<File>): Transfer {
    Transfer(session.identity.transferId, session.identity.title, files,
             session.identity.startedAt, ExpiresAt(session.identity), session.identity.deleteToken)
  }

  function Step(s: State, e: Event): State
    requires Enabled(s, e)
  {
    match e
    case Begins(dir, entries, chosen) => Begin(s, dir, entries, chosen)
    case WritesCheckpoint =>
      s.(disk := Some(CheckpointOf(s.session.value)), session := Some(s.session.value.(phase := Working)))
    case Processes(name, result) =>
      s.(processed := s.processed + [name],
         session := Some(s.session.value.(completed := s.session.value.completed[name := result])))
    case Saves(_, files) =>
      s.(saved := s.saved + [TransferOf(s.session.value, files)],
         session := Some(s.session.value.(phase := Saved)))
    case Removes(ok) => s.(disk := if ok then None else s.disk, session := None)
    case Ends => s.(session := None)
  }

  ghost predicate ValidRun(s: State, events: seq<Event>)
    decreases |events|
  {
    events == [] || (Enabled(s, events[0]) && ValidRun(Step(s, events[0]), events[1..]))
  }

  ghost function Exec(s: State, events: seq<Event>): State
    requires ValidRun(s, events)
    decreases |events|
  {
    if events == [] then s else Exec(Step(s, events[0]), events[1..])
  }

  // ---- The invariant ----

  ghost predicate CheckpointInv(s: State, c: Checkpoint) {
    && c.entries != [] && c.identity.ttlSeconds >= 1
    && forall name <- c.completed :: name in c.entries && name in s.processed
  }

  /** A running command works on what the disk says, and has recorded at least as much. */
  ghost predicate SessionInv(s: State, session: Session) {
    && session.entries != [] && session.identity.ttlSeconds >= 1
    && (forall name <- session.completed :: name in session.entries && name in s.processed)
    && (session.phase.Starting? ==> s.disk.None? && session.completed == map[])
    && (!session.phase.Starting? ==>
          && s.disk.Some?
          && s.disk.value == CheckpointOf(session).(completed := s.disk.value.completed)
          && Extends(s.disk.value.completed, session.completed))
    && (session.phase.Saved? ==> AllDone(session) && s.disk == Some(CheckpointOf(session)))
  }

  ghost predicate Inv(s: State) {
    && (s.disk.Some? ==> CheckpointInv(s, s.disk.value))
    && (s.session.Some? ==> SessionInv(s, s.session.value))
  }

  lemma StepKeepsInv(s: State, e: Event)
    requires Inv(s) && Enabled(s, e)
    ensures Inv(Step(s, e))
  {}

  // ---- One transfer until the checkpoint is removed ----

  /** `t` is the transfer the checkpoint stands for, with one result for each entry and its lifetime in milliseconds. */
  ghost predicate SavedFrom(t: Transfer, c: Checkpoint) {
    && t.id == c.identity.transferId && t.deleteToken == c.identity.deleteToken && t.title == c.identity.title
    && t.createdAt == c.identity.startedAt && t.expiresAt - t.createdAt == 1000 * c.identity.ttlSeconds
    && (forall e <- c.entries :: e in c.completed)
    && Keys(t.files) == Keys(Results(c.entries, c.completed))
  }

  /** What happened between two states in which the checkpoint was never removed. */
  ghost predicate Continues(s: State, t: State) {
    && |s.processed| <= |t.processed| && |s.saved| <= |t.saved|
    && s.processed == t.processed[..|s.processed|] && s.saved == t.saved[..|s.saved|]
    && (s.disk.Some? ==>
          && t.disk.Some?
          && t.disk.value == s.disk.value.(completed := t.disk.value.completed)
          && Extends(s.disk.value.completed, t.disk.value.completed)
          && (forall name <- t.processed[|s.processed|..] :: name !in s.disk.value.completed))
    && (forall x <- t.saved[|s.saved|..] :: t.disk.Some? && SavedFrom(x, t.disk.value))
  }

  lemma StepContinues(s: State, e: Event)
    requires Inv(s) && Enabled(s, e) && e != Removes(true)
    ensures Continues(s, Step(s, e))
  {}

  lemma ContinuesTransitive(s: State, t: State, u: State)
    requires Continues(s, t) && Continues(t, u)
    ensures Continues(s, u)
  {
    assert u.processed[|s.processed|..] == t.processed[|s.processed|..] + u.processed[|t.processed|..];
    assert u.saved[|s.saved|..] == t.saved[|s.saved|..] + u.saved[|t.saved|..];
    forall x | x in t.saved[|s.saved|..]
      ensures u.disk.Some? && SavedFrom(x, u.disk.value)
    {
      SameResults(t.disk.value.entries, t.disk.value.completed, u.disk.value.completed);
    }
  }

  lemma {:induction false} RunContinues(s: State, events: seq<Event>)
    requires Inv(s) && ValidRun(s, events) && Removes(true) !in events
    ensures Inv(Exec(s, events)) && Continues(s, Exec(s, events))
    decreases |events|
  {
    if events != [] {
      StepKeepsInv(s, events[0]);
      StepContinues(s, events[0]);
      RunContinues(Step(s, events[0]), events[1..]);
      ContinuesTransitive(s, Step(s, events[0]), Exec(s, events));
    }
  }

  /** Before any run: nothing on disk, nothing running. */
  predicate Clean(s: State) {
    s.disk.None? && s.session.None?
  }

  /**
   * Whatever crashes and reruns happen, until the checkpoint is removed every
   * save is of the one transfer the checkpoint describes: same id, delete token,
   * title, creation time and expiry, and one result for each entry.
   */
  lemma SavesAreOneTransfer(s: State, events: seq<Event>)
    requires Clean(s) && ValidRun(s, events) && Removes(true) !in events
    ensures var t := Exec(s, events);
      && |s.saved| <= |t.saved|
      && (forall x <- t.saved[|s.saved|..] ::
            && t.disk.Some? && SavedFrom(x, t.disk.value)
            && x.expiresAt - x.createdAt == 1000 * t.disk.value.identity.ttlSeconds >= 1000)
      && (forall x <- t.saved[|s.saved|..], y <- t.saved[|s.saved|..] ::
            x == y.(files := x.files) && Keys(x.files) == Keys(y.files))
  {
    RunContinues(s, events);
    var t := Exec(s, events);
    forall x, y | x in t.saved[|s.saved|..] && y in t.saved[|s.saved|..]
      ensures x == y.(files := x.files) && Keys(x.files) == Keys(y.files)
    {
      assert SavedFrom(x, t.disk.value) && SavedFrom(y, t.disk.value);
    }
  }

  /**
   * From a checkpoint on disk: the recorded set only grows, holds only files
   * that were processed, and a recorded file is never processed again.
   */
  lemma RecordedFilesStay(s: State, events: seq<Event>)
    requires Inv(s) && s.disk.Some? && ValidRun(s, events) && Removes(true) !in events
    ensures var t := Exec(s, events);
      && t.disk.Some? && t.disk.value.identity == s.disk.value.identity
      && Extends(s.disk.value.completed, t.disk.value.completed)
      && (forall name <- t.disk.value.completed :: name in t.processed)
      && (forall i :: |s.processed| <= i < |t.processed| ==> t.processed[i] !in s.disk.value.completed)
  {
    RunContinues(s, events);
    var t := Exec(s, events);
    forall i | |s.processed| <= i < |t.processed|
      ensures t.processed[i] !in s.disk.value.completed
    {
      assert t.processed[i] in t.processed[|s.processed|..];
    }
  }

  // ---- Composing runs ----

  ghost predicate Reaches(s: State, t: State) {
    exists events :: ValidRun(s, events) && Exec(s, events) == t
  }

  lemma ReachesItself(s: State)
    ensures Reaches(s, s)
  {
    assert ValidRun(s, []) && Exec(s, []) == s;
  }

  lemma {:induction false} RunSnoc(s: State, events: seq<Event>, e: Event)
    requires ValidRun(s, events) && Enabled(Exec(s, events), e)
    ensures ValidRun(s, events + [e]) && Exec(s, events + [e]) == Step(Exec(s, events), e)
    decreases |events|
  {
    if events == [] {
      assert ValidRun(Step(s, e), []);
      assert (events + [e])[1..] == [];
    } else {
      RunSnoc(Step(s, events[0]), events[1..], e);
      assert (events + [e])[1..] == events[1..] + [e];
    }
  }

  lemma ReachesStep(s: State, t: State, e: Event)
    requires Reaches(s, t) && Enabled(t, e)
    ensures Reaches(s, Step(t, e))
  {
    var events :| ValidRun(s, events) && Exec(s, events) == t;
    RunSnoc(s, events, e);
  }
}
