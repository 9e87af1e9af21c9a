/**
 * When a returned append of scripts/transfer-ops.ts has added its directory's
 * files, as a condition on what the directories list: exactly when their names
 * are not covered by listings of other directories that could all be appended.
 */
module AppendListings {
  import opened Basics
  import opened TransferAppend
  import opened TransferFiles

  /** An append command: the directory and what it lists. */
  datatype Command = Command(dir: string, entries: seq<string>)

  ghost predicate Follows(events: seq<Event>, commands: set<Command>) {
    forall e <- events :: e.Begins? ==> Command(e.dir, e.entries) in commands
  }

  function NewTransfer(id: string, files: seq<File>): State {
    State(id, files, map[], None, [], [], {})
  }

  /** Whatever crashes and reruns of these commands happen, a returned call for the directory has added its files. */
  ghost predicate AlwaysAdded(id: string, files: seq<File>, commands: set<Command>, dir: string) {
    forall events :: ValidRun(NewTransfer(id, files), events) && Follows(events, commands) ==>
      AddedIfReturned(Exec(NewTransfer(id, files), events), dir)
  }

  ghost predicate AddedIfReturned(t: State, dir: string) {
    forall r <- t.returned :: r.dir == dir ==> |Own(t.appended, dir)| == 1
  }

  predicate Disjoint(c: Command, d: Command) {
    forall e <- c.entries :: e !in d.entries
  }

  /** Other directories' listings, free in the transfer and of one another, that hold every name of `c`. */
  ghost predicate Covers(files: seq<File>, commands: set<Command>, c: Command, cover: set<Command>) {
    && cover <= commands
    && (forall d <- cover :: d.dir != c.dir && !NamesClash(d.entries, files))
    && (forall d <- cover, e <- cover :: d != e ==> Disjoint(d, e))
    && (forall e <- c.entries :: exists d <- cover :: e in d.entries)
  }

  ghost predicate Covered(files: seq<File>, commands: set<Command>, c: Command) {
    exists cover :: Covers(files, commands, c, cover)
  }

  /** Directories list something, without repetition, and this one always lists the same. */
  ghost predicate Listings(commands: set<Command>, c: Command) {
    && c in commands
    && (forall d <- commands :: Listing(d.entries))
    && (forall d <- commands :: d.dir == c.dir ==> d == c)
  }

  // ---- A returned call that added nothing shows a cover ----

  ghost predicate SavedFor(b: Batch, c: Command) {
    b.dir == c.dir && NamesAre(b.files, c.entries)
  }

  /** Every save and the running command come from one of the commands. */
  ghost predicate FromCommands(s: State, commands: set<Command>) {
    && (forall b <- s.appended :: exists c <- commands :: SavedFor(b, c))
    && (s.session.Some? ==> Command(s.session.value.dir, s.session.value.entries) in commands)
  }

  lemma StepFromCommands(s: State, e: Event, commands: set<Command>)
    requires Inv(s) && Enabled(s, e) && FromCommands(s, commands) && Follows([e], commands)
    ensures FromCommands(Step(s, e), commands)
  {
    assert e in [e];
    if e.Saves? {
      var session := s.session.value;
      SavedBatchIsNew(s, e.files);
      var b := Batch(session.dir, Results(session.entries, session.completed));
      assert SavedFor(b, Command(session.dir, session.entries));
    }
  }

  lemma {:induction false} RunFromCommands(s: State, events: seq<Event>, commands: set<Command>)
    requires Inv(s) && FromCommands(s, commands) && ValidRun(s, events) && Follows(events, commands)
    ensures FromCommands(Exec(s, events), commands)
    decreases |events|
  {
    if events != [] {
      StepKeepsInv(s, events[0]);
      StepFromCommands(s, events[0], commands);
      RunFromCommands(Step(s, events[0]), events[1..], commands);
    }
  }

  /** The commands of other directories that a save has carried out. */
  ghost function CarriedOut(t: State, commands: set<Command>, dir: string): set<Command> {
    set c | c in commands && c.dir != dir && exists b <- t.appended :: SavedFor(b, c)
  }

  lemma OneCommandPerName(t: State, commands: set<Command>, dir: string, c: Command, d: Command, name: string)
    requires Distinct(Flatten(t.appended)) && c in CarriedOut(t, commands, dir) && d in CarriedOut(t, commands, dir)
    requires name in c.entries && name in d.entries
    ensures c == d
  {
    var a :| a in t.appended && SavedFor(a, c);
    var b :| b in t.appended && SavedFor(b, d);
    var i :| 0 <= i < |c.entries| && c.entries[i] == name;
    var j :| 0 <= j < |d.entries| && d.entries[j] == name;
    assert a.files[i] in a.files && b.files[j] in b.files;
    OneBatchPerName(t.appended, a, b, name);
    assert c.entries == d.entries;
  }

  lemma CarriedOutAreDisjoint(t: State, commands: set<Command>, dir: string, c: Command, d: Command)
    requires Distinct(Flatten(t.appended)) && c in CarriedOut(t, commands, dir) && d in CarriedOut(t, commands, dir)
    requires c != d
    ensures Disjoint(c, d)
  {
    forall e | e in c.entries
      ensures e !in d.entries
    {
      if e in d.entries {
        OneCommandPerName(t, commands, dir, c, d, e);
        assert false;
      }
    }
  }

  lemma CarriedOutWasFree(files: seq<File>, t: State, commands: set<Command>, dir: string, c: Command)
    requires NoneNamedIn(Flatten(t.appended), files) && c in CarriedOut(t, commands, dir)
    ensures !NamesClash(c.entries, files)
  {
    var b :| b in t.appended && SavedFor(b, c);
    forall e | e in c.entries
      ensures !HasName(files, e)
    {
      var i :| 0 <= i < |c.entries| && c.entries[i] == e;
      FlattenMember(t.appended, b, b.files[i]);
    }
  }

  lemma AddedElsewhereIsCovered(t: State, commands: set<Command>, dir: string, e: string)
    requires FromCommands(t, commands) && AddedElsewhere(t.appended, dir, e)
    ensures exists d <- CarriedOut(t, commands, dir) :: e in d.entries
  {
    var b :| b in t.appended && b.dir != dir && HasName(b.files, e);
    var d :| d in commands && SavedFor(b, d);
    var f :| f in b.files && f.filename == e;
    var i :| 0 <= i < |b.files| && b.files[i] == f;
    assert d in CarriedOut(t, commands, dir) && d.entries[i] == e;
  }

  lemma LostIsCovered(id: string, files: seq<File>, commands: set<Command>, c: Command, events: seq<Event>)
    requires Listings(commands, c)
    requires ValidRun(NewTransfer(id, files), events) && Follows(events, commands)
    requires !AddedIfReturned(Exec(NewTransfer(id, files), events), c.dir)
    ensures Covered(files, commands, c)
  {
    var s := NewTransfer(id, files);
    var t := Exec(s, events);
    forall e | e in events && e.Begins? && e.dir == c.dir
      ensures e.entries == c.entries
    {
      assert Command(e.dir, e.entries) in commands;
    }
    RunFromCommands(s, events, commands);
    RunKeepsLedger(files, s, events);
    EachDirectoryIsAddedOnce(s, events, c.dir, c.entries);
    var cover := CarriedOut(t, commands, c.dir);
    forall d, e | d in cover && e in cover && d != e
      ensures Disjoint(d, e)
    {
      CarriedOutAreDisjoint(t, commands, c.dir, d, e);
    }
    forall d | d in cover
      ensures !NamesClash(d.entries, files)
    {
      CarriedOutWasFree(files, t, commands, c.dir, d);
    }
    forall e | e in c.entries
      ensures exists d <- cover :: e in d.entries
    {
      AddedElsewhereIsCovered(t, commands, c.dir, e);
    }
    assert Covers(files, commands, c, cover);
  }

  // ---- A cover can be carried out ----

  /** Some run of the commands leads from `s` to `t`. */
  ghost predicate Leads(commands: set<Command>, s: State, t: State) {
    exists events :: ValidRun(s, events) && Follows(events, commands) && Exec(s, events) == t
  }

  lemma LeadsStep(commands: set<Command>, s: State, t: State, e: Event)
    requires Leads(commands, s, t) && Enabled(t, e) && (e.Begins? ==> Command(e.dir, e.entries) in commands)
    ensures Leads(commands, s, Step(t, e))
  {
    var events :| ValidRun(s, events) && Follows(events, commands) && Exec(s, events) == t;
    RunSnoc(s, events, e);
    assert Follows(events + [e], commands);
  }

  /** A file the transfer gives its own name for an id, as it does for a file it passes through. */
  function Plain(name: string): Processed {
    Processed(File(name, name, ""), 1)
  }

  function PlainFiles(names: seq<string>): seq<File> {
    seq(|names|, i requires 0 <= i < |names| => Plain(names[i]).file)
  }

  function Record(names: seq<string>): map<string, Processed> {
    map name | name in names :: Plain(name)
  }

  function RecordOf(id: string, c: Command): Checkpoint {
    Checkpoint(c.dir, c.entries, id, Record(c.entries))
  }

  /** The command at work on a free directory, with the first `k` entries recorded in memory and nothing on disk. */
  function Working(s: State, c: Command, k: nat): State
    requires k <= |c.entries|
  {
    s.(disk := s.disk[c.dir := Checkpoint(c.dir, c.entries, s.id, map[])],
       session := Some(Session(c.dir, c.entries, s.files, Record(c.entries[..k]), Phase.Working)))
  }

  lemma {:induction false} LeadsWorking(commands: set<Command>, s: State, t: State, c: Command, k: nat)
    requires k <= |c.entries| && Listing(c.entries) && Leads(commands, s, Working(t, c, 0))
    ensures Leads(commands, s, Working(t, c, k))
  {
    if k > 0 {
      LeadsWorking(commands, s, t, c, k - 1);
      var name := c.entries[k - 1];
      assert name !in c.entries[..k - 1] && c.entries[..k] == c.entries[..k - 1] + [name];
      assert Record(c.entries[..k]) == Record(c.entries[..k - 1])[name := Plain(name)];
      LeadsStep(commands, s, Working(t, c, k - 1), Processes(name, Plain(name)));
    }
  }

  /** The command has recorded every entry on disk and could save. */
  function Recorded(s: State, c: Command): State {
    s.(disk := s.disk[c.dir := RecordOf(s.id, c)],
       session := Some(Session(c.dir, c.entries, s.files, Record(c.entries), Phase.Working)))
  }

  /** Nothing of this command stands in its way. */
  ghost predicate Free(s: State, commands: set<Command>, c: Command) {
    && c in commands && Listing(c.entries) && s.session.None?
    && c.dir !in s.disk && c.dir !in s.saved && !NamesClash(c.entries, s.files)
  }

  lemma LeadsRecorded(commands: set<Command>, s: State, t: State, c: Command)
    requires Leads(commands, s, t) && Free(t, commands, c)
    ensures Leads(commands, s, Recorded(t, c))
  {
    var begun := t.(session := Some(Session(c.dir, c.entries, t.files, map[], Starting)));
    LeadsStep(commands, s, t, Begins(true, c.dir, c.entries));
    LeadsStep(commands, s, begun, WritesCheckpoint);
    assert c.entries[..0] == [] && Record([]) == map[];
    LeadsWorking(commands, s, t, c, |c.entries|);
    assert c.entries[..|c.entries|] == c.entries;
    LeadsStep(commands, s, Working(t, c, |c.entries|), WritesCheckpoint);
  }

  /** The command has added its files and returned, leaving no checkpoint. */
  function Appended(s: State, c: Command): State {
    s.(files := s.files + PlainFiles(c.entries), appended := s.appended + [Batch(c.dir, PlainFiles(c.entries))],
       returned := s.returned + [Reply(c.dir, |c.entries|)])
  }

  function SaveOf(s: State, c: Command): Event {
    Saves(s.files + PlainFiles(c.entries))
  }

  lemma RecordedCanSave(s: State, commands: set<Command>, c: Command)
    requires Free(s, commands, c)
    ensures Enabled(Recorded(s, c), SaveOf(s, c))
    ensures Step(Recorded(s, c), SaveOf(s, c)).appended == Appended(s, c).appended
  {
    assert Results(c.entries, Record(c.entries)) == PlainFiles(c.entries);
    KeysConcat(s.files, PlainFiles(c.entries));
  }

  lemma SavedCanReturn(s: State, commands: set<Command>, c: Command)
    requires Free(s, commands, c) && Enabled(Recorded(s, c), SaveOf(s, c))
    requires Step(Recorded(s, c), SaveOf(s, c)).appended == Appended(s, c).appended
    ensures Step(Step(Recorded(s, c), SaveOf(s, c)), Removes(true)) == Appended(s, c)
  {
    assert s.disk[c.dir := RecordOf(s.id, c)] - {c.dir} == s.disk;
    assert s.saved + {c.dir} - {c.dir} == s.saved;
  }

  lemma LeadsAppended(commands: set<Command>, s: State, t: State, c: Command)
    requires Leads(commands, s, t) && Free(t, commands, c)
    ensures Leads(commands, s, Appended(t, c))
  {
    LeadsRecorded(commands, s, t, c);
    RecordedCanSave(t, commands, c);
    LeadsStep(commands, s, Recorded(t, c), SaveOf(t, c));
    SavedCanReturn(t, commands, c);
    LeadsStep(commands, s, Step(Recorded(t, c), SaveOf(t, c)), Removes(true));
  }

  lemma PlainMembers(names: seq<string>)
    ensures forall name :: HasName(PlainFiles(names), name) <==> name in names
    ensures forall name <- names :: Plain(name).file in PlainFiles(names)
  {
    forall name | name in names
      ensures Plain(name).file in PlainFiles(names)
    {
      var i :| 0 <= i < |names| && names[i] == name;
      assert PlainFiles(names)[i] == Plain(name).file;
    }
  }

  /** What carrying out a cover leaves: its files beside the old ones, and everything else as it was. */
  ghost predicate CoverDone(s: State, t: State, cover: set<Command>) {
    && t == s.(files := t.files, appended := t.appended, returned := t.returned)
    && (forall f <- s.files :: f in t.files)
    && (forall d <- cover, e <- d.entries :: Plain(e).file in t.files)
    && (forall dir :: (forall d <- cover :: d.dir != dir) ==> Own(t.appended, dir) == Own(s.appended, dir))
  }

  lemma StillFree(s: State, commands: set<Command>, c: Command, d: Command)
    requires Free(s, commands, c) && Free(s, commands, d) && Disjoint(d, c)
    ensures Free(Appended(s, c), commands, d)
  {
    PlainMembers(c.entries);
    forall e | e in d.entries
      ensures !HasName(s.files + PlainFiles(c.entries), e)
    {
      assert !HasName(s.files, e) && !HasName(PlainFiles(c.entries), e);
    }
  }

  lemma OneMoreDone(s: State, c: Command, t: State, rest: set<Command>)
    requires CoverDone(Appended(s, c), t, rest)
    ensures CoverDone(s, t, rest + {c})
  {
    PlainMembers(c.entries);
    forall dir | forall d <- rest + {c} :: d.dir != dir
      ensures Own(t.appended, dir) == Own(s.appended, dir)
    {
      assert c in rest + {c} && forall d <- rest :: d in rest + {c};
      OwnNext(s.appended, dir, Batch(c.dir, PlainFiles(c.entries)));
    }
  }

  lemma {:induction false} LeadsCovered(commands: set<Command>, s: State, t: State, cover: set<Command>)
    returns (u: State)
    requires Leads(commands, s, t) && t.session.None?
    requires forall c <- cover :: Free(t, commands, c)
    requires forall c <- cover, d <- cover :: c != d ==> Disjoint(c, d)
    ensures Leads(commands, s, u) && CoverDone(t, u, cover)
    decreases |cover|
  {
    if cover == {} {
      u := t;
    } else {
      var c :| c in cover;
      var rest := cover - {c};
      LeadsAppended(commands, s, t, c);
      forall d | d in rest
        ensures Free(Appended(t, c), commands, d)
      {
        StillFree(t, commands, c, d);
      }
      u := LeadsCovered(commands, s, Appended(t, c), rest);
      OneMoreDone(t, c, u, rest);
      assert rest + {c} == cover;
    }
  }

  /**
   * A covered directory can be lost: it dies with every file recorded, the
   * others append theirs, and its rerun reports zero files added, removes its
   * checkpoint and never adds its own.
   */
  lemma CoveredIsLost(id: string, files: seq<File>, commands: set<Command>, c: Command) returns (t: State)
    requires Listings(commands, c) && Covered(files, commands, c)
    ensures Leads(commands, NewTransfer(id, files), t)
    ensures Reply(c.dir, 0) in t.returned && Own(t.appended, c.dir) == [] && c.dir !in t.disk
  {
    var s := NewTransfer(id, files);
    var cover :| Covers(files, commands, c, cover);
    assert ValidRun(s, []) && Follows([], commands) && Exec(s, []) == s;
    assert Free(s, commands, c) by {
      forall e | e in c.entries
        ensures !HasName(files, e)
      {
        var d: Command :| d in cover && e in d.entries;
      }
    }
    LeadsRecorded(commands, s, s, c);
    LeadsStep(commands, s, Recorded(s, c), Ends);
    var died := s.(disk := map[c.dir := RecordOf(id, c)]);
    assert Step(Recorded(s, c), Ends) == died;
    var u := LeadsCovered(commands, s, died, cover);
    assert AlreadyIn(c.entries, Record(c.entries), u.files) by {
      forall e | e in c.entries
        ensures HasId(u.files, e) && HasName(u.files, e)
      {
        var d: Command :| d in cover && e in d.entries;
        assert Plain(e).file in u.files;
      }
    }
    LeadsStep(commands, s, u, Begins(true, c.dir, c.entries));
    var begun := Step(u, Begins(true, c.dir, c.entries));
    LeadsStep(commands, s, begun, Removes(true));
    t := Step(begun, Removes(true));
  }

  // ---- The exact condition ----

  /**
   * A call for a directory that returns has always added the directory's files,
   * if and only if their names are not covered by other directories' listings.
   */
  lemma ReturnedMeansAdded(id: string, files: seq<File>, commands: set<Command>, c: Command)
    requires Listings(commands, c)
    ensures AlwaysAdded(id, files, commands, c.dir) <==> !Covered(files, commands, c)
  {
    if Covered(files, commands, c) {
      var t := CoveredIsLost(id, files, commands, c);
      var s := NewTransfer(id, files);
      var events :| ValidRun(s, events) && Follows(events, commands) && Exec(s, events) == t;
      assert !AddedIfReturned(Exec(s, events), c.dir);
    } else {
      var s := NewTransfer(id, files);
      forall events | ValidRun(s, events) && Follows(events, commands)
        ensures AddedIfReturned(Exec(s, events), c.dir)
      {
        if !AddedIfReturned(Exec(s, events), c.dir) {
          LostIsCovered(id, files, commands, c, events);
        }
      }
    }
  }

  /** One name that no other directory lists is enough. */
  lemma OneNameOfItsOwnIsEnough(id: string, files: seq<File>, commands: set<Command>, c: Command, name: string)
    requires Listings(commands, c) && name in c.entries
    requires forall d <- commands :: d.dir != c.dir ==> name !in d.entries
    ensures AlwaysAdded(id, files, commands, c.dir)
  {
    ReturnedMeansAdded(id, files, commands, c);
  }

  /** A second directory that lists all the first's names, none of them taken, can make the first's append be lost. */
  lemma AnotherDirectoryFinalizesTheFirst(id: string, files: seq<File>, c: Command, d: Command)
    requires Listing(c.entries) && Listing(d.entries) && c.dir != d.dir
    requires (forall e <- c.entries :: e in d.entries) && !NamesClash(d.entries, files)
    ensures !AlwaysAdded(id, files, {c, d}, c.dir)
  {
    assert Covers(files, {c, d}, c, {d});
    ReturnedMeansAdded(id, files, {c, d}, c);
  }
}
