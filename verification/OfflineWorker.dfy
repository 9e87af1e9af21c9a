/**
 * The service worker of src/sw.ts with the browser's CacheStorage and the
 * `preparations` map as fields updated in place.  The pieces between awaits are
 * methods, each proved to be one step of `OfflineCache`; the loops of a
 * preparation, a sweep and a removal are then runs of that machine.
 */
module OfflineWorker {
  import opened Basics
  import Model = OfflineCache
  import opened OfflineCache

  /** Some run of the machine leads from `s` to `t`. */
  ghost predicate Reaches(s: State, t: State) {
    Inv(s) && exists events :: ValidRun(s, events) && Exec(s, events) == t
  }

  lemma ReachesItself(s: State)
    requires Inv(s)
    ensures Reaches(s, s)
  {
    assert ValidRun(s, []) && Exec(s, []) == s;
  }

  /** Adding one step to a run. */
  lemma ReachesStep(s: State, t: State, e: Event)
    requires Reaches(s, t) && Inv(t) && Enabled(t, e)
    ensures Reaches(s, Step(t, e))
  {
    var events :| ValidRun(s, events) && Exec(s, events) == t;
    RunCons(t, e, []);
    assert [e] + [] == [e];
    RunAppend(s, events, [e]);
    assert Exec(s, events + [e]) == Step(t, e);
  }

  lemma ReachesTransitive(s: State, t: State, u: State)
    requires Reaches(s, t) && Reaches(t, u)
    ensures Reaches(s, u)
  {
    var a :| ValidRun(s, a) && Exec(s, a) == t;
    var b :| ValidRun(t, b) && Exec(t, b) == u;
    RunAppend(s, a, b);
    assert Exec(s, a + b) == u;
  }

  predicate Remains(name: Name, slug: Slug, candidate: Name, stuck: set<Name>) {
    NameOf(name, slug) ==> name == candidate || name in stuck
  }

  function Dropped(listed: seq<Name>, candidate: Name, stuck: set<Name>): set<Name> {
    set name | name in listed && name != candidate && name !in stuck
  }

  lemma DropMore(names: map<Name, Handle>, listed: seq<Name>, i: nat, candidate: Name, stuck: set<Name>)
    requires i < |listed|
    ensures (names - Dropped(listed[..i], candidate, stuck)) - Dropped([listed[i]], candidate, stuck)
            == names - Dropped(listed[..i + 1], candidate, stuck)
  {
    assert listed[..i + 1] == listed[..i] + [listed[i]];
    assert Dropped(listed[..i + 1], candidate, stuck)
           == Dropped(listed[..i], candidate, stuck) + Dropped([listed[i]], candidate, stuck);
  }

  /** One check on the candidate's own cache, whose recorded resources are all there, finds its resource. */
  lemma CheckFinds(s: State, slug: Slug)
    requires Inv(s) && Enabled(s, Checks(slug))
    ensures var p, t := s.preparations[slug], Step(s, Checks(slug));
      && t.store == s.store && slug in t.preparations
      && (t.preparations[slug] == p.(phase := Verifying(p.phase.reopened, p.phase.checked + 1))
          || (p.phase.reopened != p.handle && t.preparations[slug] == p.(phase := Abandoning)))
  {
    var p := s.preparations[slug];
    assert p.urls[p.phase.checked] in p.urls;
  }

  lemma OnlyRemaining(names: map<Name, Handle>, listed: seq<Name>, slug: Slug, candidate: Name, stuck: set<Name>)
    requires forall name :: name in listed <==> name in names && NameOf(name, slug)
    ensures forall name :: name in names - Dropped(listed, candidate, stuck)
                           <==> name in names && Remains(name, slug, candidate, stuck)
  {}

  /** Of the names there before, exactly those done that held no metadata are gone. */
  ghost predicate Swept(before: Store, now: map<Name, Handle>, done: seq<Name>) {
    && (forall name <- now :: name in before.names && now[name] == before.names[name])
    && forall name <- before.names :: name in now <==> (name in done ==> HasMetadata(before, name))
  }

  lemma SweptNext(before: Store, now: map<Name, Handle>, done: seq<Name>, name: Name)
    requires Swept(before, now, done)
    ensures Swept(before, if name in now && !HasMetadata(before, name) then now - {name} else now, done + [name])
  {}

  /** Every cache but that of one handle is as it was. */
  ghost predicate OthersKept(before: map<Handle, Cache>, after: map<Handle, Cache>, handle: Handle) {
    forall h <- before :: h != handle ==> h in after && after[h] == before[h]
  }

  /** The name leads to a cache with this metadata and every resource. */
  ghost predicate Holds(store: Store, name: Name, urls: seq<Url>, metadata: Metadata) {
    && name in store.names && store.names[name] in store.caches
    && store.caches[store.names[name]].metadata == Some(metadata)
    && forall url <- urls :: url in store.caches[store.names[name]].urls
  }

  /** From an open candidate to the end: replaced, or abandoned because of a bad response. */
  ghost predicate Replaced(s: State, t: State, slug: Slug, candidate: Name, handle: Handle, urls: seq<Url>,
                           metadata: Metadata, bad: set<Url>, stuck: set<Name>, ok: bool)
  {
    && (ok <==> forall url <- urls :: url !in bad)
    && (ok ==> forall name :: name in t.store.names <==> name in s.store.names && Remains(name, slug, candidate, stuck))
    && (ok ==> Holds(t.store, candidate, urls, metadata))
    && (!ok ==> t.store.names == s.store.names - {candidate})
    && (forall name <- t.store.names :: name in s.store.names && t.store.names[name] == s.store.names[name])
    && OthersKept(s.store.caches, t.store.caches, handle)
  }

  /**
   * An undisturbed preparation, in terms of what is stored.  On success the
   * candidate has the metadata and every resource, and of the other names those
   * of this thing are gone but for those that could not be deleted; on failure
   * the names are what they were.  No other cache is touched.
   */
  ghost predicate Prepared(s: State, t: State, slug: Slug, candidate: Name, urls: seq<Url>, metadata: Metadata,
                           bad: set<Url>, stuck: set<Name>, ok: bool)
  {
    && (ok <==> forall url <- urls :: url !in bad)
    && (ok ==> Holds(t.store, candidate, urls, metadata))
    && (ok ==> forall name :: name in t.store.names <==>
          || name == candidate
          || (name in s.store.names && (("mah-thing-offline:" + slug + ":") <= name ==> name in stuck)))
    && (!ok ==> t.store.names == s.store.names)
    && (forall name <- t.store.names :: name == candidate
          || (name in s.store.names && t.store.names[name] == s.store.names[name]))
    && (forall h <- s.store.caches :: h in t.store.caches && t.store.caches[h] == s.store.caches[h])
  }

  lemma ReplacedIsPrepared(s: State, begun: State, t: State, slug: Slug, candidate: Name, urls: seq<Url>,
                           metadata: Metadata, bad: set<Url>, stuck: set<Name>, ok: bool)
    requires Inv(s) && Enabled(s, Starts(slug, urls, candidate)) && candidate !in s.store.names
    requires begun == Step(s, Starts(slug, urls, candidate))
    requires Replaced(begun, t, slug, candidate, s.store.next, urls, metadata, bad, stuck, ok)
    ensures Prepared(s, t, slug, candidate, urls, metadata, bad, stuck, ok)
  {
    assert begun.store.names == s.store.names[candidate := s.store.next];
    assert CachePrefix(slug) == "mah-thing-offline:" + slug + ":";
  }

  /** Of the names of these things, those whose cache has no metadata are gone, and nothing else. */
  ghost predicate KeepsMetadata(before: Store, after: Store, slugs: seq<Slug>) {
    && after.caches == before.caches
    && (forall name <- after.names :: name in before.names && after.names[name] == before.names[name])
    && forall name <- before.names ::
         name in after.names <==>
           ((exists slug <- slugs :: ("mah-thing-offline:" + slug + ":") <= name) ==>
              before.names[name] in before.caches && before.caches[before.names[name]].metadata.Some?)
  }

  class Worker {
    var names: map<Name, Handle>
    var caches: map<Handle, Cache>
    var next: Handle
    var preparations: map<Slug, Preparation>
    ghost var stragglers: set<Handle>
    ghost var condemned: set<Name>

    ghost function View(): State
      reads this
    {
      State(Store(names, caches, next), preparations, stragglers, condemned)
    }

    ghost predicate Valid()
      reads this
    {
      Inv(View())
    }

    /** Opens a cache, making an empty one if the name is missing. */
    method OpenCache(name: Name) returns (handle: Handle)
      modifies this`names, this`caches, this`next
      ensures Store(names, caches, next) == Model.Open(old(Store(names, caches, next)), name)
      ensures name in names && handle == names[name]
    {
      if name !in names {
        names, caches, next := names[name := next], caches[next := EmptyCache(name)], next + 1;
      }
      handle := names[name];
    }

    /** The start of `performThingPreparation`: the candidate is opened and registered. */
    method Begin(slug: Slug, urls: seq<Url>, candidate: Name)
      requires Valid() && Enabled(View(), Starts(slug, urls, candidate))
      modifies this
      ensures Valid() && View() == Step(old(View()), Starts(slug, urls, candidate))
    {
      StepKeepsInv(View(), Starts(slug, urls, candidate));
      var handle := OpenCache(candidate);
      preparations := preparations[slug := Preparation(slug, urls, candidate, handle, Fetching)];
    }

    /** A good response is stored in the candidate. */
    method CacheResource(slug: Slug, url: Url)
      requires Valid() && Enabled(View(), Stores(slug, url))
      modifies this
      ensures Valid() && View() == Step(old(View()), Stores(slug, url))
      ensures names == old(names) && preparations == old(preparations) && caches.Keys == old(caches).Keys
      ensures OthersKept(old(caches), caches, preparations[slug].handle)
      ensures url in caches[preparations[slug].handle].urls
      ensures old(caches[preparations[slug].handle].urls) <= caches[preparations[slug].handle].urls
    {
      StepKeepsInv(View(), Stores(slug, url));
      var handle := preparations[slug].handle;
      caches := caches[handle := caches[handle].(urls := caches[handle].urls + {url})];
    }

    method RecordMetadata(slug: Slug, metadata: Metadata)
      requires Valid() && Enabled(View(), Records(slug, metadata))
      modifies this
      ensures Valid() && View() == Step(old(View()), Records(slug, metadata))
    {
      StepKeepsInv(View(), Records(slug, metadata));
      var handle := preparations[slug].handle;
      caches := caches[handle := caches[handle].(metadata := Some(metadata))];
      preparations := preparations[slug := preparations[slug].(phase := Reopening)];
    }

    /** An exception inside the try block. */
    method Throw(slug: Slug)
      requires Valid() && Enabled(View(), Fails(slug))
      modifies this
      ensures Valid() && View() == Step(old(View()), Fails(slug))
    {
      StepKeepsInv(View(), Fails(slug));
      stragglers := stragglers + {preparations[slug].handle};
      preparations := preparations[slug := preparations[slug].(phase := Abandoning)];
    }

    /** The candidate is opened again by name, for the check of its resources. */
    method Reopen(slug: Slug)
      requires Valid() && Enabled(View(), Reopens(slug))
      modifies this
      ensures Valid() && View() == Step(old(View()), Reopens(slug))
    {
      StepKeepsInv(View(), Reopens(slug));
      var handle := OpenCache(preparations[slug].candidate);
      preparations := preparations[slug := preparations[slug].(phase := Verifying(handle, 0))];
    }

    method CheckResource(slug: Slug)
      requires Valid() && Enabled(View(), Checks(slug))
      modifies this
      ensures Valid() && View() == Step(old(View()), Checks(slug))
    {
      StepKeepsInv(View(), Checks(slug));
      var p := preparations[slug];
      preparations := preparations[slug := p.(phase :=
        if p.urls[p.phase.checked] in caches[p.phase.reopened].urls
          then Verifying(p.phase.reopened, p.phase.checked + 1)
        else Abandoning)];
    }

    /** Every cache name with the prefix of the thing. */
    method ListNames(slug: Slug) returns (listed: seq<Name>)
      ensures forall name :: name in listed <==> name in names && NameOf(name, slug)
    {
      var rest := names.Keys;
      listed := [];
      while rest != {}
        invariant rest <= names.Keys
        invariant forall name :: name in listed <==> name in names && name !in rest && NameOf(name, slug)
        decreases rest
      {
        var name :| name in rest;
        rest := rest - {name};
        if NameOf(name, slug) {
          listed := listed + [name];
        }
      }
    }

    method BeginCleaning(slug: Slug, listed: seq<Name>)
      requires Valid() && Enabled(View(), Lists(slug, listed))
      modifies this
      ensures Valid() && View() == Step(old(View()), Lists(slug, listed))
    {
      StepKeepsInv(View(), Lists(slug, listed));
      preparations := preparations[slug := preparations[slug].(phase := Cleaning(listed))];
    }

    /** One turn of the cleaning loop; a deletion that throws is ignored. */
    method DropNext(slug: Slug, deleted: bool)
      requires Valid() && Enabled(View(), Drops(slug, deleted))
      modifies this
      ensures Valid() && View() == Step(old(View()), Drops(slug, deleted))
    {
      StepKeepsInv(View(), Drops(slug, deleted));
      var p := preparations[slug];
      var name := p.phase.rest[0];
      if name != p.candidate && deleted {
        names := names - {name};
      }
      preparations := preparations[slug := p.(phase := Cleaning(p.phase.rest[1..]))];
    }

    method Complete(slug: Slug)
      requires Valid() && Enabled(View(), Completes(slug))
      modifies this
      ensures Valid() && View() == Step(old(View()), Completes(slug))
    {
      StepKeepsInv(View(), Completes(slug));
      preparations := preparations - {slug};
    }

    /** The catch block. */
    method Abandon(slug: Slug, deleted: bool)
      requires Valid() && Enabled(View(), Abandons(slug, deleted))
      modifies this
      ensures Valid() && View() == Step(old(View()), Abandons(slug, deleted))
    {
      StepKeepsInv(View(), Abandons(slug, deleted));
      if deleted {
        names := names - {preparations[slug].candidate};
      }
      preparations := preparations - {slug};
    }

    /** The candidate's resources are stored in the order in which their responses arrive; a bad response throws. */
    method FetchAll(slug: Slug, arrivals: seq<Url>, bad: set<Url>) returns (ok: bool)
      requires Valid() && slug in preparations && preparations[slug].phase.Fetching?
      requires forall url <- arrivals :: url in preparations[slug].urls
      modifies this
      ensures Valid() && Reaches(old(View()), View())
      ensures names == old(names) && preparations.Keys == old(preparations).Keys
      ensures ok ==> preparations == old(preparations) && forall url <- arrivals :: url in Stored(slug)
      ensures !ok ==> preparations[slug] == old(preparations)[slug].(phase := Abandoning)
      ensures ok <==> forall url <- arrivals :: url !in bad
      ensures slug in old(preparations) && OthersKept(old(caches), caches, old(preparations)[slug].handle)
    {
      ghost var from := View();
      ReachesItself(from);
      for i := 0 to |arrivals|
        invariant AllStored(from, slug, arrivals[..i], bad)
      {
        assert arrivals[..i + 1] == arrivals[..i] + [arrivals[i]];
        ok := FetchOne(slug, arrivals[i], bad, from, arrivals[..i]);
        if !ok {
          return;
        }
      }
      assert arrivals[..|arrivals|] == arrivals;
      ok := true;
    }

    /** A preparation that is still fetching has stored these resources since `from`, and touched nothing else. */
    ghost predicate AllStored(from: State, slug: Slug, done: seq<Url>, bad: set<Url>)
      reads this
    {
      && Valid() && Reaches(from, View())
      && preparations == from.preparations && names == from.store.names && slug in preparations
      && OthersKept(from.store.caches, caches, preparations[slug].handle)
      && forall url <- done :: url in Stored(slug) && url !in bad
    }

    /** What is stored under the candidate's handle. */
    ghost function Stored(slug: Slug): set<Url>
      reads this
    {
      if slug in preparations && preparations[slug].handle in caches then caches[preparations[slug].handle].urls else {}
    }

    /** One resource: stored, or the throw that ends the try block. */
    method FetchOne(slug: Slug, url: Url, bad: set<Url>, ghost from: State, ghost done: seq<Url>) returns (ok: bool)
      requires AllStored(from, slug, done, bad)
      requires preparations[slug].phase.Fetching? && url in preparations[slug].urls
      modifies this
      ensures ok <==> url !in bad
      ensures ok ==> AllStored(from, slug, done + [url], bad)
      ensures !ok ==>
        && Valid() && Reaches(from, View()) && names == from.store.names
        && preparations == from.preparations[slug := from.preparations[slug].(phase := Abandoning)]
        && OthersKept(from.store.caches, caches, from.preparations[slug].handle)
    {
      if url in bad {
        ReachesStep(from, View(), Fails(slug));
        Throw(slug);
        return false;
      }
      ReachesStep(from, View(), Stores(slug, url));
      CacheResource(slug, url);
      ok := true;
    }

    /** The check of the candidate by its name; the preparation throws when a resource is missing. */
    method VerifyCandidate(slug: Slug) returns (ok: bool)
      requires Valid() && slug in preparations && preparations[slug].phase.Reopening?
      modifies this
      ensures Valid() && Reaches(old(View()), View())
      ensures slug in preparations && preparations[slug].candidate == old(preparations)[slug].candidate
      ensures ok ==>
        preparations[slug].phase.Verifying? && preparations[slug].phase.checked == |preparations[slug].urls|
      ensures !ok ==> preparations[slug].phase.Abandoning?
      ensures old(preparations[slug].candidate in names
          && names[preparations[slug].candidate] == preparations[slug].handle) ==>
        ok && names == old(names) && caches == old(caches)
    {
      ghost var whole := preparations[slug].candidate in names
        && names[preparations[slug].candidate] == preparations[slug].handle;
      ReachesItself(View());
      ReachesStep(old(View()), View(), Reopens(slug));
      Reopen(slug);
      ghost var namesThen, cachesThen := names, caches;
      var n := |preparations[slug].urls|;
      for i := 0 to n
        invariant Valid() && Reaches(old(View()), View()) && names == namesThen && caches == cachesThen
        invariant slug in preparations && preparations[slug].candidate == old(preparations)[slug].candidate
        invariant |preparations[slug].urls| == n
        invariant preparations[slug].phase.Verifying? && preparations[slug].phase.checked == i
        invariant whole ==> preparations[slug].phase.reopened == preparations[slug].handle
      {
        ok := CheckNext(slug, old(View()));
        if !ok {
          return;
        }
      }
      ok := true;
    }

    /** One resource of the check; what is missing throws. */
    method CheckNext(slug: Slug, ghost from: State) returns (ok: bool)
      requires Valid() && Reaches(from, View()) && slug in preparations && preparations[slug].phase.Verifying?
      requires preparations[slug].phase.checked < |preparations[slug].urls|
      modifies this
      ensures Valid() && Reaches(from, View()) && names == old(names) && caches == old(caches)
      ensures var p := old(preparations)[slug];
        slug in preparations && preparations[slug] == p.(phase :=
          if ok then Verifying(p.phase.reopened, p.phase.checked + 1) else Abandoning)
      ensures old(preparations[slug].phase.reopened == preparations[slug].handle) ==> ok
    {
      CheckFinds(View(), slug);
      ReachesStep(from, View(), Checks(slug));
      CheckResource(slug);
      ok := preparations[slug].phase.Verifying?;
    }

    /** The cleaning loop over the listed names; a deletion that throws is ignored. */
    method DropAll(slug: Slug, listed: seq<Name>, stuck: set<Name>)
      requires Valid() && slug in preparations && preparations[slug].phase == Cleaning(listed)
      modifies this
      ensures Valid() && Reaches(old(View()), View())
      ensures preparations == old(preparations)[slug := old(preparations)[slug].(phase := Cleaning([]))]
      ensures caches == old(caches)
      ensures names == old(names) - Dropped(listed, old(preparations)[slug].candidate, stuck)
    {
      ghost var from := View();
      ReachesItself(from);
      for i := 0 to |listed|
        invariant Valid() && Reaches(from, View()) && caches == old(caches)
        invariant preparations == old(preparations)[slug := old(preparations)[slug].(phase := Cleaning(listed[i..]))]
        invariant names == old(names) - Dropped(listed[..i], old(preparations)[slug].candidate, stuck)
      {
        assert listed[i..][1..] == listed[i + 1..];
        DropMore(old(names), listed, i, old(preparations)[slug].candidate, stuck);
        DropOne(slug, listed[i..], stuck, from);
      }
      assert listed[..|listed|] == listed;
    }

    method DropOne(slug: Slug, rest: seq<Name>, stuck: set<Name>, ghost from: State)
      requires Valid() && Reaches(from, View()) && slug in preparations && preparations[slug].phase == Cleaning(rest)
      requires rest != []
      modifies this
      ensures Valid() && Reaches(from, View()) && caches == old(caches)
      ensures preparations == old(preparations)[slug := old(preparations)[slug].(phase := Cleaning(rest[1..]))]
      ensures slug in old(preparations)
      ensures names == old(names) - Dropped([rest[0]], old(preparations)[slug].candidate, stuck)
    {
      var deleted := rest[0] !in stuck;
      ReachesStep(from, View(), Drops(slug, deleted));
      DropNext(slug, deleted);
    }

    /** Every cache of the thing but the candidate goes, except those whose deletion throws. */
    method CleanUp(slug: Slug, stuck: set<Name>)
      requires Valid() && slug in preparations && preparations[slug].phase.Verifying?
      requires preparations[slug].phase.checked == |preparations[slug].urls|
      modifies this
      ensures Valid() && Reaches(old(View()), View())
      ensures preparations == old(preparations) - {slug} && caches == old(caches)
      ensures forall name :: name in names <==>
        name in old(names) && Remains(name, slug, old(preparations)[slug].candidate, stuck)
      ensures forall name <- names :: names[name] == old(names)[name]
    {
      var listed := StartCleaning(slug);
      ghost var before := View();
      OnlyRemaining(names, listed, slug, preparations[slug].candidate, stuck);
      FinishCleaning(slug, listed, stuck);
      ReachesTransitive(old(View()), before, View());
    }

    method FinishCleaning(slug: Slug, listed: seq<Name>, stuck: set<Name>)
      requires Valid() && slug in preparations && preparations[slug].phase == Cleaning(listed)
      modifies this
      ensures Valid() && Reaches(old(View()), View())
      ensures preparations == old(preparations) - {slug} && caches == old(caches)
      ensures names == old(names) - Dropped(listed, old(preparations)[slug].candidate, stuck)
    {
      DropAll(slug, listed, stuck);
      ReachesStep(old(View()), View(), Completes(slug));
      Complete(slug);
    }

    method StartCleaning(slug: Slug) returns (listed: seq<Name>)
      requires Valid() && slug in preparations && preparations[slug].phase.Verifying?
      requires preparations[slug].phase.checked == |preparations[slug].urls|
      modifies this
      ensures Valid() && Reaches(old(View()), View())
      ensures names == old(names) && caches == old(caches)
      ensures preparations == old(preparations)[slug := old(preparations)[slug].(phase := Cleaning(listed))]
      ensures forall name :: name in listed <==> name in names && NameOf(name, slug)
    {
      listed := ListNames(slug);
      ReachesItself(View());
      ReachesStep(View(), View(), Lists(slug, listed));
      BeginCleaning(slug, listed);
    }

    /**
     * performThingPreparation without another step in between: a thing that is
     * ready is left alone unless a refresh is asked for.  Otherwise it succeeds
     * unless a response is bad, then leaves only the complete candidate (and what
     * could not be deleted), and on a bad response leaves the names as they were.
     */
    method PerformThingPreparation(slug: Slug, urls: seq<Url>, refresh: bool, ready: bool, candidate: Name,
                                   metadata: Metadata, arrivals: seq<Url>, bad: set<Url>, stuck: set<Name>)
      returns (ok: bool)
      requires Valid() && Enabled(View(), Starts(slug, urls, candidate)) && candidate !in names
      requires metadata.resourceUrls == urls && forall url :: url in arrivals <==> url in urls
      modifies this
      ensures Valid() && Reaches(old(View()), View())
      ensures slug !in preparations
      ensures ready && !refresh ==> ok && View() == old(View())
      ensures refresh || !ready ==> Prepared(old(View()), View(), slug, candidate, urls, metadata, bad, stuck, ok)
      ensures (refresh || !ready) && ok ==> Model.Complete(View().store, candidate)
    {
      ReachesItself(View());
      if !refresh && ready {
        return true;
      }
      ReachesStep(View(), View(), Starts(slug, urls, candidate));
      Begin(slug, urls, candidate);
      ghost var begun := View();
      ok := FillAndReplace(slug, urls, metadata, arrivals, bad, stuck);
      ReachesTransitive(old(View()), begun, View());
      ReplacedIsPrepared(old(View()), begun, View(), slug, candidate, urls, metadata, bad, stuck, ok);
    }

    /** The try block and its catch, once the candidate is open. */
    method FillAndReplace(slug: Slug, urls: seq<Url>, metadata: Metadata, arrivals: seq<Url>, bad: set<Url>,
                          stuck: set<Name>)
      returns (ok: bool)
      requires Valid() && slug in preparations && preparations[slug].phase.Fetching? && preparations[slug].urls == urls
      requires preparations[slug].candidate in names && names[preparations[slug].candidate] == preparations[slug].handle
      requires metadata.resourceUrls == urls && forall url :: url in arrivals <==> url in urls
      modifies this
      ensures Valid() && Reaches(old(View()), View())
      ensures slug !in preparations
      ensures var p := old(preparations)[slug];
        Replaced(old(View()), View(), slug, p.candidate, p.handle, urls, metadata, bad, stuck, ok)
    {
      ok := FetchAll(slug, arrivals, bad);
      ghost var fetched := View();
      if ok {
        Replace(slug, metadata, stuck);
        ReachesTransitive(old(View()), fetched, View());
      } else {
        ReachesStep(old(View()), View(), Abandons(slug, true));
        Abandon(slug, true);
      }
    }

    /** The rest of an undisturbed preparation whose resources are all stored. */
    method Replace(slug: Slug, metadata: Metadata, stuck: set<Name>)
      requires Valid() && Enabled(View(), Records(slug, metadata))
      requires preparations[slug].candidate in names && names[preparations[slug].candidate] == preparations[slug].handle
      modifies this
      ensures Valid() && Reaches(old(View()), View())
      ensures slug !in preparations
      ensures forall name :: name in names <==>
        name in old(names) && Remains(name, slug, old(preparations)[slug].candidate, stuck)
      ensures forall name <- names :: names[name] == old(names)[name]
      ensures OthersKept(old(caches), caches, old(preparations)[slug].handle)
      ensures Holds(View().store, old(preparations)[slug].candidate, old(preparations)[slug].urls, metadata)
    {
      ReachesItself(View());
      ReachesStep(View(), View(), Records(slug, metadata));
      RecordMetadata(slug, metadata);
      ghost var recorded := View();
      assert Recorded(recorded, recorded.preparations[slug]);
      var ok := VerifyCandidate(slug);
      ReachesTransitive(old(View()), recorded, View());
      ghost var verified := View();
      CleanUp(slug, stuck);
      ReachesTransitive(old(View()), verified, View());
    }

    /** One name of the sweep, read and deleted without another step in between. */
    method SweepName(name: Name, ghost from: State)
      requires Valid() && Reaches(from, View()) && name in names && condemned == {}
      modifies this
      ensures Valid() && Reaches(from, View()) && condemned == {} && preparations == old(preparations)
      ensures caches == old(caches)
      ensures names == if HasMetadata(old(View()).store, name) then old(names) else old(names) - {name}
    {
      var complete := name in names && caches[names[name]].metadata.Some?;
      ReachesStep(from, View(), SweepReads(name));
      StepKeepsInv(View(), SweepReads(name));
      if !complete {
        condemned := condemned + {name};
        ReachesStep(from, View(), SweepDeletes(name));
        StepKeepsInv(View(), SweepDeletes(name));
        names := names - {name};
        condemned := condemned - {name};
      }
    }

    /** One thing's turn of the sweep, without another step in between. */
    method RemoveIncompleteCaches(slug: Slug, ghost from: State)
      requires Valid() && Reaches(from, View()) && condemned == {}
      modifies this
      ensures Valid() && Reaches(from, View()) && condemned == {} && preparations == old(preparations)
      ensures caches == old(caches) && forall name <- names :: name in old(names) && names[name] == old(names)[name]
      ensures forall name <- old(names) ::
        name in names <==> (NameOf(name, slug) ==> HasMetadata(old(View()).store, name))
    {
      ghost var before := View().store;
      var listed := ListNames(slug);
      for i := 0 to |listed|
        invariant Valid() && Reaches(from, View()) && condemned == {} && preparations == old(preparations)
        invariant caches == old(caches) && Swept(before, names, listed[..i])
      {
        assert listed[..i + 1] == listed[..i] + [listed[i]];
        SweptNext(before, names, listed[..i], listed[i]);
        if listed[i] in names {
          SweepName(listed[i], from);
        }
      }
      assert listed[..|listed|] == listed;
    }

    /** removeIncompleteThingCaches: exactly the names of these things that hold no metadata go. */
    method RemoveIncompleteThingCaches(slugs: seq<Slug>)
      requires Valid() && condemned == {}
      modifies this
      ensures Valid() && Reaches(old(View()), View()) && condemned == {} && preparations == old(preparations)
      ensures forall name :: name in names <==>
        name in old(names) && ((exists slug <- slugs :: NameOf(name, slug)) ==> HasMetadata(old(View()).store, name))
      ensures KeepsMetadata(old(View()).store, View().store, slugs)
    {
      ghost var from := View();
      ReachesItself(from);
      for i := 0 to |slugs|
        invariant Valid() && Reaches(from, View()) && condemned == {} && preparations == old(preparations)
        invariant caches == old(caches)
        invariant forall name <- names :: name in old(names) && names[name] == old(names)[name]
        invariant forall name <- old(names) ::
          name in names <==> ((exists slug <- slugs[..i] :: NameOf(name, slug)) ==>
            HasMetadata(old(View()).store, name))
      {
        assert slugs[..i + 1] == slugs[..i] + [slugs[i]];
        RemoveIncompleteCaches(slugs[i], from);
      }
      assert slugs[..|slugs|] == slugs;
      assert forall slug, name :: NameOf(name, slug) <==> ("mah-thing-offline:" + slug + ":") <= name;
    }
  }
}
