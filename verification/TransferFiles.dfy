/** What creating a transfer and appending to one share: files, results and the checkpoint's record of them. */
module TransferFiles {

  /** What a processed file leaves in the transfer; `detail` is everything but its id and name. */
  datatype File = File(id: string, filename: string, detail: string)

  datatype Processed = Processed(file: File, uploadedBytes: nat)

  /** What can happen while uploads are running: one completes in memory, or a queued checkpoint write is done. */
  datatype Work = Uploaded(name: string, result: Processed) | Written

  /** The id and name of every file, with multiplicity: what sorting and grouping keep. */
  function Keys(files: seq<File>): multiset<(string, string)> {
    if files == [] then multiset{} else multiset{(files[0].id, files[0].filename)} + Keys(files[1..])
  }

  /** The results of the entries, in the order of the entries. */
  function Results(entries: seq<string>, completed: map<string, Processed>): seq<File>
    requires forall e <- entries :: e in completed
  {
    seq(|entries|, i requires 0 <= i < |entries| => assert entries[i] in entries; completed[entries[i]].file)
  }

  /** The in-memory record once the work is done: the first result of each entry not recorded before. */
  function Completed(entries: seq<string>, done: map<string, Processed>, work: seq<Work>): map<string, Processed> {
    if work == [] then done
    else
      var before := Completed(entries, done, work[..|work| - 1]);
      match work[|work| - 1]
      case Uploaded(name, result) => if name in entries && name !in before then before[name := result] else before
      case Written => before
  }

  /** One file for each entry, in the order of the entries: that of its recorded result. */
  ghost predicate ListsResults(listed: seq<File>, entries: seq<string>, completed: map<string, Processed>) {
    && |listed| == |entries|
    && forall i :: 0 <= i < |entries| ==> entries[i] in completed && listed[i] == completed[entries[i]].file
  }

  lemma ResultsAreListed(entries: seq<string>, completed: map<string, Processed>)
    requires forall e <- entries :: e in completed
    ensures ListsResults(Results(entries, completed), entries, completed)
  {
    assert forall i :: 0 <= i < |entries| ==> entries[i] in entries;
  }

  /** An entry that no earlier attempt recorded and this one does not upload. */
  ghost predicate IsMissing(e: string, done: map<string, Processed>, work: seq<Work>) {
    e !in done && forall w <- work :: w.Uploaded? ==> w.name != e
  }

  lemma MissingIsUnrecorded(entries: seq<string>, done: map<string, Processed>, work: seq<Work>)
    ensures forall e <- entries :: e in Completed(entries, done, work) <==> !IsMissing(e, done, work)
  {
    CompletedExtends(entries, done, work);
  }

  /** What is recorded stays; everything else is an upload of this attempt under its own entry. */
  lemma {:induction false} CompletedExtends(entries: seq<string>, done: map<string, Processed>, work: seq<Work>)
    ensures var all := Completed(entries, done, work);
      && Extends(done, all)
      && (forall name <- all :: name in done || (name in entries && Uploaded(name, all[name]) in work))
      && (forall w <- work :: w.Uploaded? && w.name in entries ==> w.name in all)
  {
    if work != [] {
      CompletedExtends(entries, done, work[..|work| - 1]);
      assert work == work[..|work| - 1] + [work[|work| - 1]];
    }
  }

  ghost predicate Extends(small: map<string, Processed>, large: map<string, Processed>) {
    forall name <- small :: name in large && large[name] == small[name]
  }

  lemma SameResults(entries: seq<string>, a: map<string, Processed>, b: map<string, Processed>)
    requires (forall e <- entries :: e in a) && Extends(a, b)
    ensures (forall e <- entries :: e in b) && Results(entries, a) == Results(entries, b)
  {}

  lemma {:induction false} KeysConcat(a: seq<File>, b: seq<File>)
    ensures Keys(a + b) == Keys(a) + Keys(b)
  {
    if a == [] {
      assert a + b == b;
    } else {
      assert (a + b)[1..] == a[1..] + b;
      KeysConcat(a[1..], b);
    }
  }

  lemma {:induction false} KeysMember(files: seq<File>, id: string, name: string)
    ensures (id, name) in Keys(files) <==> exists f <- files :: f.id == id && f.filename == name
  {
    if files != [] {
      KeysMember(files[1..], id, name);
      assert files == [files[0]] + files[1..];
    }
  }
}
