/**
 * The offline cache replacement protocol of src/sw.ts: a preparation fills a
 * candidate cache, checks it under its name, and only then drops older caches of
 * the same thing.  Each step is what runs between two awaits.  A cache name and
 * a cache handle are different things: deleting a name leaves open handles
 * alive, and opening a missing name makes an empty cache (Service Workers, W3C,
 * section 5.5).
 */
module OfflineCache {
  import opened Basics

  type Url = string
  type Slug = string
  type Name = string
  type Handle = nat

  datatype Metadata = Metadata(offlineVersion: nat, resourceUrls: seq<Url>, storageVersion: nat, preparedAt: int)

  /** One request-to-response list, the name it was opened under, and its metadata entry. */
  datatype Cache = Cache(name: Name, urls: set<Url>, metadata: Option<Metadata>)

  datatype Store = Store(names: map<Name, Handle>, caches: map<Handle, Cache>, next: Handle)

  datatype Phase =
    | Fetching
    | Reopening
    | Verifying(reopened: Handle, checked: nat)
    | Cleaning(rest: seq<Name>)
    | Abandoning

  datatype Preparation = Preparation(slug: Slug, urls: seq<Url>, candidate: Name, handle: Handle, phase: Phase)

  /**
   * `preparations` is the worker's map of running preparations, `stragglers` the
   * handles that fetches of a failed preparation may still write to, and
   * `condemned` the names an activation sweep has read as incomplete and is
   * about to delete.
   */
  datatype State = State(
    store: Store,
    preparations: map<Slug, Preparation>,
    stragglers: set<Handle>,
    condemned: set<Name>)

  datatype Event =
    | Starts(slug: Slug, urls: seq<Url>, candidate: Name)
    | Stores(slug: Slug, url: Url)
    | Records(slug: Slug, metadata: Metadata)
    | Reopens(slug: Slug)
    | Checks(slug: Slug)
    | Lists(slug: Slug, listed: seq<Name>)
    | Drops(slug: Slug, deleted: bool)
    | Completes(slug: Slug)
    | Fails(slug: Slug)
    | Abandons(slug: Slug, deleted: bool)
    | Straggles(handle: Handle, url: Url)
    | Opens(name: Name)
    | SweepReads(name: Name)
    | SweepDeletes(name: Name)
    | SweepDropsStale(name: Name)
    | Removes(slug: Slug, name: Name)
    | Crashes

  // ---- Names ----

  const CACHE_PREFIX := "mah-thing-offline"

  function CachePrefix(slug: Slug): string {
    CACHE_PREFIX + ":" + slug + ":"
  }

  predicate StartsWith(s: string, prefix: string) {
    prefix <= s
  }

  predicate EndsWith(s: string, suffix: string) {
    |suffix| <= |s| && s[|s| - |suffix|..] == suffix
  }

  predicate NameOf(name: Name, slug: Slug) {
    StartsWith(name, CachePrefix(slug))
  }

  predicate Staging(name: Name) {
    StartsWith(name, CACHE_PREFIX + ":") && EndsWith(name, ":staging")
  }

  /** An optional model cache of any release; the sweep drops the ones of older releases. */
  predicate OptionalAi(name: Name) {
    StartsWith(name, "mah-optional-ai:")
  }

  /** offlineCacheKey(slug, version):build:time-random */
  function CandidateCacheName(slug: Slug, version: string, build: string, time: string, random: string): Name {
    CachePrefix(slug) + "v" + version + ":" + build + ":" + time + "-" + random
  }

  /** Slugs hold no colon, so no name belongs to two of them. */
  lemma PrefixesAreDisjoint(name: Name, s: Slug, t: Slug)
    requires ':' !in s && ':' !in t && NameOf(name, s) && NameOf(name, t)
    ensures s == t
  {
    var k := |CACHE_PREFIX| + 1;
    var a, b := CachePrefix(s), CachePrefix(t);
    assert a[k..] == s + ":" && b[k..] == t + ":";
    assert name[k..k + |s|] == s && name[k + |s|] == ':';
    assert name[k..k + |t|] == t && name[k + |t|] == ':';
    assert |s| == |t|;
  }

  lemma StagingSuffix(s: string)
    requires EndsWith(s, ":staging")
    ensures s[|s| - 8] == ':' && forall k :: |s| - 8 < k < |s| ==> s[k] != ':' && s[k] != '-'
  {
    var suffix := s[|s| - 8..];
    assert suffix[0] == ':';
    forall k | |s| - 8 < k < |s|
      ensures s[k] != ':' && s[k] != '-'
    {
      assert s[k] == suffix[k - (|s| - 8)];
    }
  }

  /** What follows the last colon holds a hyphen, so the name does not end as a staging name does. */
  lemma NonceIsNotStaging(name: Name, start: nat, hyphen: nat)
    requires 0 < start <= hyphen < |name| && name[start - 1] == ':' && name[hyphen] == '-'
    requires forall k :: start <= k < |name| ==> name[k] != ':'
    ensures !EndsWith(name, ":staging")
  {
    if EndsWith(name, ":staging") {
      StagingSuffix(name);
      assert false;
    }
  }

  /** A candidate's last part holds a hyphen and no colon, so it is never taken for a staging cache. */
  lemma CandidateNamesAreSafe(slug: Slug, version: string, build: string, time: string, random: string)
    requires ':' !in time && ':' !in random
    ensures var name := CandidateCacheName(slug, version, build, time, random);
      NameOf(name, slug) && !Staging(name) && !OptionalAi(name)
  {
    var name := CandidateCacheName(slug, version, build, time, random);
    var nonce := time + "-" + random;
    var front := CachePrefix(slug) + "v" + version + ":" + build + ":";
    assert name == front + nonce;
    assert nonce[|time|] == '-' && forall k :: 0 <= k < |nonce| ==> nonce[k] != ':';
    assert forall k :: |front| <= k < |name| ==> name[k] == nonce[k - |front|];
    assert name[|front| + |time|] == '-' && name[|front| - 1] == ':';
    NonceIsNotStaging(name, |front|, |front| + |time|);
    StaleNamesAreOthers(name, slug);
  }

  // ---- CacheStorage ----

  function EmptyCache(name: Name): Cache {
    Cache(name, {}, None)
  }

  /** Opening a name that is missing makes an empty cache under a new handle. */
  function Open(store: Store, name: Name): Store {
    if name in store.names then store
    else Store(store.names[name := store.next], store.caches[store.next := EmptyCache(name)], store.next + 1)
  }

  /** Deleting a name leaves the cache itself to whoever holds its handle. */
  function Delete(store: Store, name: Name): Store {
    store.(names := store.names - {name})
  }

  /** A response stored through an open handle, whether or not a name still leads to it. */
  function Put(store: Store, handle: Handle, url: Url): Store
    requires handle in store.caches
  {
    var cache := store.caches[handle];
    store.(caches := store.caches[handle := cache.(urls := cache.urls + {url})])
  }

  function PutMetadata(store: Store, handle: Handle, metadata: Metadata): Store
    requires handle in store.caches
  {
    store.(caches := store.caches[handle := store.caches[handle].(metadata := Some(metadata))])
  }

  /** Every name resolves to a cache that was opened under it; handles are never reused. */
  ghost predicate WellFormed(store: Store) {
    && (forall name <- store.names :: store.names[name] in store.caches && store.caches[store.names[name]].name == name)
    && (forall handle <- store.caches :: handle < store.next)
  }

  predicate Resolves(store: Store, name: Name) {
    name in store.names && store.names[name] in store.caches
  }

  /** readMetadata(slug, name) finds an entry. */
  predicate HasMetadata(store: Store, name: Name) {
    Resolves(store, name) && store.caches[store.names[name]].metadata.Some?
  }

  /** Metadata is present and so is every resource it lists. */
  predicate Complete(store: Store, name: Name) {
    && HasMetadata(store, name)
    && var cache := store.caches[store.names[name]];
      forall url <- cache.metadata.value.resourceUrls :: url in cache.urls
  }

  // ---- Steps ----

  ghost predicate Enabled(s: State, e: Event) {
    match e
    case Starts(slug, urls, candidate) =>
      && slug !in s.preparations && ':' !in slug
      && NameOf(candidate, slug) && !Staging(candidate)
      && urls != []
      && candidate !in s.condemned
      && forall handle <- s.store.caches :: s.store.caches[handle].name != candidate
    case Stores(slug, url) =>
      slug in s.preparations && s.preparations[slug].phase.Fetching? && url in s.preparations[slug].urls
    case Records(slug, metadata) =>
      && slug in s.preparations && s.preparations[slug].phase.Fetching?
      && metadata.resourceUrls == s.preparations[slug].urls
      && s.preparations[slug].handle in s.store.caches
      && forall url <- metadata.resourceUrls :: url in s.store.caches[s.preparations[slug].handle].urls
    case Reopens(slug) => slug in s.preparations && s.preparations[slug].phase.Reopening?
    case Checks(slug) =>
      && slug in s.preparations && s.preparations[slug].phase.Verifying?
      && s.preparations[slug].phase.checked < |s.preparations[slug].urls|
    case Lists(slug, listed) =>
      && slug in s.preparations && s.preparations[slug].phase.Verifying?
      && s.preparations[slug].phase.checked == |s.preparations[slug].urls|
      && forall name :: name in listed <==> name in s.store.names && NameOf(name, slug)
    case Drops(slug, _) =>
      slug in s.preparations && s.preparations[slug].phase.Cleaning? && s.preparations[slug].phase.rest != []
    case Completes(slug) =>
      slug in s.preparations && s.preparations[slug].phase.Cleaning? && s.preparations[slug].phase.rest == []
    case Fails(slug) =>
      && slug in s.preparations
      && (s.preparations[slug].phase.Fetching? || s.preparations[slug].phase.Reopening?
          || s.preparations[slug].phase.Verifying?)
    case Abandons(slug, _) => slug in s.preparations && s.preparations[slug].phase.Abandoning?
    case Straggles(handle, _) => handle in s.stragglers
    case Opens(name) => exists handle <- s.store.caches :: s.store.caches[handle].name == name
    case SweepReads(name) => true
    case SweepDeletes(name) => name in s.condemned
    case SweepDropsStale(name) => Staging(name) || OptionalAi(name)
    case Removes(slug, name) => ':' !in slug && NameOf(name, slug)
    case Crashes => true
  }

  function SetPhase(s: State, slug: Slug, phase: Phase): State
    requires slug in s.preparations
  {
    s.(preparations := s.preparations[slug := s.preparations[slug].(phase := phase)])
  }

  function EndPreparation(s: State, slug: Slug): State {
    s.(preparations := s.preparations - {slug})
  }

  function Check(s: State, slug: Slug): State
    requires slug in s.preparations && s.preparations[slug].phase.Verifying?
    requires s.preparations[slug].phase.checked < |s.preparations[slug].urls|
    requires s.preparations[slug].phase.reopened in s.store.caches
  {
    var p := s.preparations[slug];
    if p.urls[p.phase.checked] in s.store.caches[p.phase.reopened].urls then
      SetPhase(s, slug, Verifying(p.phase.reopened, p.phase.checked + 1))
    else SetPhase(s, slug, Abandoning)
  }

  function Drop(s: State, slug: Slug, deleted: bool): State
    requires slug in s.preparations && s.preparations[slug].phase.Cleaning? && s.preparations[slug].phase.rest != []
  {
    var p := s.preparations[slug];
    var name := p.phase.rest[0];
    var store := if name != p.candidate && deleted then Delete(s.store, name) else s.store;
    SetPhase(s.(store := store), slug, Cleaning(p.phase.rest[1..]))
  }

  function Step(s: State, e: Event): State
    requires Inv(s) && Enabled(s, e)
  {
    match e
    case Starts(slug, urls, candidate) =>
      var store := Open(s.store, candidate);
      s.(store := store,
         preparations := s.preparations[slug := Preparation(slug, urls, candidate, store.names[candidate], Fetching)])
    case Stores(slug, url) => s.(store := Put(s.store, s.preparations[slug].handle, url))
    case Records(slug, metadata) =>
      SetPhase(s.(store := PutMetadata(s.store, s.preparations[slug].handle, metadata)), slug, Reopening)
    case Reopens(slug) =>
      var store := Open(s.store, s.preparations[slug].candidate);
      SetPhase(s.(store := store), slug, Verifying(store.names[s.preparations[slug].candidate], 0))
    case Checks(slug) => Check(s, slug)
    case Lists(slug, listed) => SetPhase(s, slug, Cleaning(listed))
    case Drops(slug, deleted) => Drop(s, slug, deleted)
    case Completes(slug) => EndPreparation(s, slug)
    case Fails(slug) => SetPhase(s.(stragglers := s.stragglers + {s.preparations[slug].handle}), slug, Abandoning)
    case Abandons(slug, deleted) =>
      EndPreparation(if deleted then s.(store := Delete(s.store, s.preparations[slug].candidate)) else s, slug)
    case Straggles(handle, url) => s.(store := Put(s.store, handle, url))
    case Opens(name) => s.(store := Open(s.store, name))
    case SweepReads(name) =>
      var store := Open(s.store, name);
      if HasMetadata(store, name) then s.(store := store)
      else s.(store := store, condemned := s.condemned + {name})
    case SweepDeletes(name) => s.(store := Delete(s.store, name), condemned := s.condemned - {name})
    case SweepDropsStale(name) => s.(store := Delete(s.store, name))
    case Removes(slug, name) => s.(store := Delete(s.store, name))
    case Crashes => s.(preparations := map[], stragglers := {}, condemned := {})
  }

  // ---- The invariant ----

  /** The candidate's handle holds metadata and everything it lists. */
  ghost predicate Recorded(s: State, p: Preparation)
    requires p.handle in s.store.caches
  {
    var cache := s.store.caches[p.handle];
    && cache.metadata.Some? && cache.metadata.value.resourceUrls == p.urls
    && forall url <- p.urls :: url in cache.urls
  }

  /** A handle opened under the candidate's name is the preparation's own, or nobody has written to it. */
  ghost predicate OwnOrEmpty(s: State, p: Preparation, handle: Handle) {
    && handle in s.store.caches
    && (handle == p.handle || (s.store.caches[handle] == EmptyCache(p.candidate) && handle !in s.stragglers))
  }

  ghost predicate PhaseInv(s: State, p: Preparation)
    requires p.handle in s.store.caches
  {
    match p.phase
    case Fetching => true
    case Abandoning => true
    case Reopening => Recorded(s, p)
    case Verifying(handle, checked) =>
      && Recorded(s, p) && OwnOrEmpty(s, p, handle)
      && checked <= |p.urls| && (checked > 0 ==> handle == p.handle)
    case Cleaning(rest) => Recorded(s, p) && forall name <- rest :: NameOf(name, p.slug)
  }

  ghost predicate PreparationInv(s: State, slug: Slug, p: Preparation) {
    && p.slug == slug && ':' !in slug && NameOf(p.candidate, slug) && !Staging(p.candidate) && p.urls != []
    && p.handle in s.store.caches && s.store.caches[p.handle].name == p.candidate
    && (p.candidate in s.store.names ==> OwnOrEmpty(s, p, s.store.names[p.candidate]))
    && PhaseInv(s, p)
  }

  ghost predicate Inv(s: State) {
    && WellFormed(s.store)
    && s.stragglers <= s.store.caches.Keys
    && forall slug <- s.preparations :: PreparationInv(s, slug, s.preparations[slug])
  }

  // ---- How the store operations affect a preparation ----

  lemma OpenKeepsPreparation(s: State, slug: Slug, p: Preparation, name: Name)
    requires Inv(s) && PreparationInv(s, slug, p)
    ensures PreparationInv(s.(store := Open(s.store, name)), slug, p)
  {}

  lemma DeleteKeepsPreparation(s: State, slug: Slug, p: Preparation, name: Name)
    requires PreparationInv(s, slug, p)
    ensures PreparationInv(s.(store := Delete(s.store, name)), slug, p)
  {}

  /** A write through the preparation's own handle, or through one opened under another name. */
  lemma PutKeepsPreparation(s: State, slug: Slug, p: Preparation, handle: Handle, url: Url)
    requires Inv(s) && PreparationInv(s, slug, p) && handle in s.store.caches
    requires handle == p.handle || handle in s.stragglers || s.store.caches[handle].name != p.candidate
    ensures PreparationInv(s.(store := Put(s.store, handle, url)), slug, p)
  {}

  lemma DistinctCandidates(s: State, slug: Slug, other: Slug)
    requires Inv(s) && slug in s.preparations && other in s.preparations && slug != other
    ensures s.preparations[slug].candidate != s.preparations[other].candidate
  {
    var p, q := s.preparations[slug], s.preparations[other];
    if p.candidate == q.candidate {
      PrefixesAreDisjoint(p.candidate, slug, other);
    }
  }

  // ---- Every step keeps the invariant ----

  lemma OpenKeepsInv(s: State, name: Name)
    requires Inv(s)
    ensures Inv(s.(store := Open(s.store, name)))
  {
    forall slug | slug in s.preparations
      ensures PreparationInv(s.(store := Open(s.store, name)), slug, s.preparations[slug])
    {
      OpenKeepsPreparation(s, slug, s.preparations[slug], name);
    }
  }

  lemma DeleteKeepsInv(s: State, name: Name)
    requires Inv(s)
    ensures Inv(s.(store := Delete(s.store, name)))
  {
    forall slug | slug in s.preparations
      ensures PreparationInv(s.(store := Delete(s.store, name)), slug, s.preparations[slug])
    {
      DeleteKeepsPreparation(s, slug, s.preparations[slug], name);
    }
  }

  lemma PutKeepsInv(s: State, handle: Handle, url: Url)
    requires Inv(s)
    requires (handle in s.stragglers || exists slug <- s.preparations :: handle == s.preparations[slug].handle)
    ensures Inv(s.(store := Put(s.store, handle, url)))
  {
    forall slug | slug in s.preparations
      ensures PreparationInv(s.(store := Put(s.store, handle, url)), slug, s.preparations[slug])
    {
      if handle !in s.stragglers {
        var owner :| owner in s.preparations && handle == s.preparations[owner].handle;
        if owner != slug {
          DistinctCandidates(s, slug, owner);
        }
      }
      PutKeepsPreparation(s, slug, s.preparations[slug], handle, url);
    }
  }

  lemma RecordKeepsInv(s: State, slug: Slug, metadata: Metadata)
    requires Inv(s) && slug in s.preparations && s.preparations[slug].phase.Fetching?
    ensures Inv(s.(store := PutMetadata(s.store, s.preparations[slug].handle, metadata)))
  {
    forall other | other in s.preparations
      ensures PreparationInv(s.(store := PutMetadata(s.store, s.preparations[slug].handle, metadata)),
                             other, s.preparations[other])
    {
      if other != slug {
        DistinctCandidates(s, slug, other);
      }
    }
  }

  lemma StraggleKeepsInv(s: State, slug: Slug)
    requires Inv(s) && slug in s.preparations
    ensures Inv(s.(stragglers := s.stragglers + {s.preparations[slug].handle}))
  {
    forall other | other in s.preparations
      ensures PreparationInv(s.(stragglers := s.stragglers + {s.preparations[slug].handle}),
                             other, s.preparations[other])
    {
      if other != slug {
        DistinctCandidates(s, slug, other);
      }
    }
  }

  lemma SetPhaseKeepsInv(s: State, slug: Slug, phase: Phase)
    requires Inv(s) && slug in s.preparations && PhaseInv(s, s.preparations[slug].(phase := phase))
    ensures Inv(SetPhase(s, slug, phase))
  {
    var t := SetPhase(s, slug, phase);
    forall other | other in s.preparations
      ensures PreparationInv(t, other, t.preparations[other])
    {
      assert PreparationInv(s, other, s.preparations[other]);
    }
  }

  lemma StartKeepsInv(s: State, slug: Slug, urls: seq<Url>, candidate: Name)
    requires Inv(s) && Enabled(s, Starts(slug, urls, candidate))
    ensures Inv(Step(s, Starts(slug, urls, candidate)))
  {
    OpenKeepsInv(s, candidate);
    var t := Step(s, Starts(slug, urls, candidate));
    forall other | other in t.preparations
      ensures PreparationInv(t, other, t.preparations[other])
    {
      assert other != slug ==> PreparationInv(s.(store := t.store), other, s.preparations[other]);
    }
  }

  lemma CheckKeepsInv(s: State, slug: Slug)
    requires Inv(s) && Enabled(s, Checks(slug))
    ensures Inv(Step(s, Checks(slug)))
  {
    var p := s.preparations[slug];
    if p.urls[p.phase.checked] in s.store.caches[p.phase.reopened].urls {
      SetPhaseKeepsInv(s, slug, Verifying(p.phase.reopened, p.phase.checked + 1));
    } else {
      SetPhaseKeepsInv(s, slug, Abandoning);
    }
  }

  lemma WriteKeepsInv(s: State, e: Event)
    requires Inv(s) && Enabled(s, e) && (e.Stores? || e.Records? || e.Reopens?)
    ensures Inv(Step(s, e))
  {
    var p := s.preparations[e.slug];
    match e {
      case Stores(slug, url) => PutKeepsInv(s, p.handle, url);
      case Records(slug, metadata) =>
        RecordKeepsInv(s, slug, metadata);
        SetPhaseKeepsInv(s.(store := PutMetadata(s.store, p.handle, metadata)), slug, Reopening);
      case Reopens(slug) =>
        OpenKeepsInv(s, p.candidate);
        SetPhaseKeepsInv(s.(store := Open(s.store, p.candidate)), slug,
                         Verifying(Open(s.store, p.candidate).names[p.candidate], 0));
    }
  }

  lemma FinishKeepsInv(s: State, e: Event)
    requires Inv(s) && Enabled(s, e)
    requires e.Lists? || e.Drops? || e.Completes? || e.Fails? || e.Abandons?
    ensures Inv(Step(s, e))
  {
    var p := s.preparations[e.slug];
    match e {
      case Lists(slug, listed) => SetPhaseKeepsInv(s, slug, Cleaning(listed));
      case Drops(slug, deleted) =>
        var name := p.phase.rest[0];
        DeleteKeepsInv(s, name);
        SetPhaseKeepsInv(if name != p.candidate && deleted then s.(store := Delete(s.store, name)) else s, slug,
                         Cleaning(p.phase.rest[1..]));
      case Completes(slug) =>
      case Fails(slug) =>
        StraggleKeepsInv(s, slug);
        SetPhaseKeepsInv(s.(stragglers := s.stragglers + {p.handle}), slug, Abandoning);
      case Abandons(slug, deleted) => DeleteKeepsInv(s, p.candidate);
    }
  }

  lemma StepKeepsInv(s: State, e: Event)
    requires Inv(s) && Enabled(s, e)
    ensures Inv(Step(s, e))
  {
    match e {
      case Starts(slug, urls, candidate) => StartKeepsInv(s, slug, urls, candidate);
      case Stores(_, _) => WriteKeepsInv(s, e);
      case Records(_, _) => WriteKeepsInv(s, e);
      case Reopens(_) => WriteKeepsInv(s, e);
      case Checks(slug) => CheckKeepsInv(s, slug);
      case Straggles(handle, url) => PutKeepsInv(s, handle, url);
      case Opens(name) => OpenKeepsInv(s, name);
      case SweepReads(name) => OpenKeepsInv(s, name);
      case SweepDeletes(name) => DeleteKeepsInv(s, name);
      case SweepDropsStale(name) => DeleteKeepsInv(s, name);
      case Removes(_, name) => DeleteKeepsInv(s, name);
      case Crashes =>
      case _ => FinishKeepsInv(s, e);
    }
  }

  // ---- Complete caches are kept ----

  /** A complete cache of the thing, under a name no sweep treats as stale. */
  ghost predicate Keeper(s: State, slug: Slug, name: Name) {
    NameOf(name, slug) && !Staging(name) && Complete(s.store, name)
  }

  /** The thing can be opened offline. */
  ghost predicate HasComplete(s: State, slug: Slug) {
    exists name :: Keeper(s, slug, name)
  }

  /** What a sweep has condemned still has no metadata. */
  ghost predicate CondemnedIncomplete(s: State, slug: Slug) {
    forall name <- s.condemned :: NameOf(name, slug) ==> !HasMetadata(s.store, name)
  }

  /** Once the check has found the candidate's own cache under its name, the name stays with it. */
  ghost predicate Sealed(s: State, p: Preparation) {
    p.phase.Cleaning? || (p.phase.Verifying? && p.phase.reopened == p.handle) ==>
      p.candidate in s.store.names && s.store.names[p.candidate] == p.handle
  }

  /** Until cleaning starts, some complete cache other than the candidate is there. */
  ghost predicate KeptBy(s: State, slug: Slug, name: Name) {
    && Keeper(s, slug, name)
    && (slug in s.preparations && !s.preparations[slug].phase.Cleaning? ==> name != s.preparations[slug].candidate)
  }

  ghost predicate Kept(s: State, slug: Slug) {
    && CondemnedIncomplete(s, slug)
    && (slug in s.preparations ==> Sealed(s, s.preparations[slug]))
    && exists name :: KeptBy(s, slug, name)
  }

  /** A sweep is about to delete the candidate's own cache by name, having read it before its metadata was written. */
  predicate Exposed(s: State, slug: Slug)
    requires slug in s.preparations
  {
    var p := s.preparations[slug];
    p.candidate in s.condemned && p.candidate in s.store.names && s.store.names[p.candidate] == p.handle
  }

  /** The user does not remove the thing, and its metadata is not written into a cache a sweep is about to delete. */
  ghost predicate Undisturbed(s: State, e: Event, slug: Slug)
    requires Enabled(s, e)
  {
    && (e.Removes? ==> e.slug != slug)
    && (e.Records? && e.slug == slug ==> !Exposed(s, slug))
  }

  lemma StaleNamesAreOthers(name: Name, slug: Slug)
    requires NameOf(name, slug)
    ensures !OptionalAi(name)
  {
    assert name[4] == CachePrefix(slug)[4] == 't';
    assert "mah-optional-ai:"[4] == 'o';
  }

  /** In cleaning, the candidate itself is the complete cache. */
  lemma CleaningKeeper(s: State, slug: Slug)
    requires Inv(s) && slug in s.preparations && s.preparations[slug].phase.Cleaning? && Sealed(s, s.preparations[slug])
    ensures Keeper(s, slug, s.preparations[slug].candidate)
  {}

  /** Deleting a name other than the keeper and the sealed candidate. */
  lemma DeleteKeeps(s: State, slug: Slug, name: Name, keeper: Name)
    requires Inv(s) && Kept(s, slug) && KeptBy(s, slug, keeper)
    requires name != keeper
    requires slug in s.preparations ==>
      var p := s.preparations[slug];
      p.phase.Cleaning? || (p.phase.Verifying? && p.phase.reopened == p.handle) ==> name != p.candidate
    ensures Kept(s.(store := Delete(s.store, name)), slug)
  {
    assert KeptBy(s.(store := Delete(s.store, name)), slug, keeper);
  }

  lemma OpenKeeps(s: State, slug: Slug, name: Name)
    requires Inv(s) && Kept(s, slug)
    ensures Kept(s.(store := Open(s.store, name)), slug)
  {
    var keeper :| KeptBy(s, slug, keeper);
    assert KeptBy(s.(store := Open(s.store, name)), slug, keeper);
  }

  lemma PutKeeps(s: State, slug: Slug, handle: Handle, url: Url)
    requires Inv(s) && Kept(s, slug) && handle in s.store.caches
    ensures Kept(s.(store := Put(s.store, handle, url)), slug)
  {
    var keeper :| KeptBy(s, slug, keeper);
    assert KeptBy(s.(store := Put(s.store, handle, url)), slug, keeper);
  }

  lemma ForeignNamesDiffer(s: State, slug: Slug, other: Slug, name: Name, keeper: Name)
    requires Inv(s) && ':' !in slug && other in s.preparations && other != slug
    requires NameOf(name, other) && NameOf(keeper, slug)
    ensures name != keeper
  {
    if name == keeper {
      PrefixesAreDisjoint(name, slug, other);
    }
  }

  lemma StartKeeps(s: State, slug: Slug, e: Event)
    requires Inv(s) && Enabled(s, e) && e.Starts? && Kept(s, slug)
    ensures Kept(Step(s, e), slug)
  {
    var keeper :| KeptBy(s, slug, keeper);
    assert s.store.caches[s.store.names[keeper]].name == keeper;
    assert KeptBy(Step(s, e), slug, keeper);
  }

  /** Writing metadata gives it to no condemned name of the thing, unless its own candidate is exposed. */
  lemma RecordKeepsCondemned(s: State, slug: Slug, e: Event)
    requires Inv(s) && Enabled(s, e) && e.Records?
    requires ':' !in slug && CondemnedIncomplete(s, slug) && Undisturbed(s, e, slug)
    ensures CondemnedIncomplete(Step(s, e), slug)
  {
    var p := s.preparations[e.slug];
    forall name | name in s.condemned && NameOf(name, slug) && Resolves(s.store, name)
      ensures s.store.names[name] != p.handle
    {
      if s.store.names[name] == p.handle && e.slug != slug {
        PrefixesAreDisjoint(name, slug, e.slug);
      }
    }
  }

  lemma RecordKeeps(s: State, slug: Slug, e: Event)
    requires Inv(s) && Enabled(s, e) && e.Records?
    requires ':' !in slug && Kept(s, slug) && Undisturbed(s, e, slug)
    ensures Kept(Step(s, e), slug)
  {
    var keeper :| KeptBy(s, slug, keeper);
    RecordKeepsCondemned(s, slug, e);
    if e.slug != slug {
      ForeignNamesDiffer(s, slug, e.slug, s.preparations[e.slug].candidate, keeper);
    }
    assert KeptBy(Step(s, e), slug, keeper);
  }

  lemma WriteKeeps(s: State, slug: Slug, e: Event)
    requires Inv(s) && Enabled(s, e) && (e.Stores? || e.Reopens?)
    requires Kept(s, slug)
    ensures Kept(Step(s, e), slug)
  {
    var p := s.preparations[e.slug];
    if e.Stores? {
      PutKeeps(s, slug, p.handle, e.url);
    } else {
      OpenKeeps(s, slug, p.candidate);
      var keeper :| KeptBy(s.(store := Open(s.store, p.candidate)), slug, keeper);
      assert KeptBy(Step(s, e), slug, keeper);
    }
  }

  /** Another thing's preparation deletes only names of that thing. */
  lemma ForeignDropKeeps(s: State, slug: Slug, e: Event)
    requires Inv(s) && Enabled(s, e) && (e.Drops? || e.Abandons?) && e.slug != slug
    requires ':' !in slug && Kept(s, slug)
    ensures Kept(Step(s, e), slug)
  {
    var p := s.preparations[e.slug];
    var keeper :| KeptBy(s, slug, keeper);
    var name := if e.Drops? then p.phase.rest[0] else p.candidate;
    ForeignNamesDiffer(s, slug, e.slug, name, keeper);
    if slug in s.preparations {
      ForeignNamesDiffer(s, slug, e.slug, name, s.preparations[slug].candidate);
    }
    DeleteKeeps(s, slug, name, keeper);
    assert KeptBy(Step(s, e), slug, keeper);
  }

  lemma OwnDropKeeps(s: State, slug: Slug, deleted: bool)
    requires Inv(s) && Enabled(s, Drops(slug, deleted)) && Kept(s, slug)
    ensures Kept(Step(s, Drops(slug, deleted)), slug)
  {
    CleaningKeeper(s, slug);
    assert KeptBy(Step(s, Drops(slug, deleted)), slug, s.preparations[slug].candidate);
  }

  lemma OwnAbandonKeeps(s: State, slug: Slug, deleted: bool)
    requires Inv(s) && Enabled(s, Abandons(slug, deleted)) && Kept(s, slug)
    ensures Kept(Step(s, Abandons(slug, deleted)), slug)
  {
    var keeper :| KeptBy(s, slug, keeper);
    DeleteKeeps(s, slug, s.preparations[slug].candidate, keeper);
    assert KeptBy(Step(s, Abandons(slug, deleted)), slug, keeper);
  }

  lemma DropKeeps(s: State, slug: Slug, e: Event)
    requires Inv(s) && Enabled(s, e) && (e.Drops? || e.Abandons?)
    requires ':' !in slug && Kept(s, slug)
    ensures Kept(Step(s, e), slug)
  {
    if e.slug != slug {
      ForeignDropKeeps(s, slug, e);
    } else if e.Drops? {
      OwnDropKeeps(s, slug, e.deleted);
    } else {
      OwnAbandonKeeps(s, slug, e.deleted);
    }
  }

  lemma PhaseKeeps(s: State, slug: Slug, e: Event)
    requires Inv(s) && Enabled(s, e) && (e.Checks? || e.Lists? || e.Completes? || e.Fails? || e.Crashes?)
    requires Kept(s, slug)
    ensures Kept(Step(s, e), slug)
  {
    var keeper :| KeptBy(s, slug, keeper);
    var t := Step(s, e);
    assert Keeper(t, slug, keeper);
    assert slug in t.preparations ==>
      slug in s.preparations && t.preparations[slug].candidate == s.preparations[slug].candidate;
    assert KeptBy(t, slug, keeper);
  }

  lemma SweepReadKeeps(s: State, slug: Slug, name: Name)
    requires Inv(s) && Enabled(s, SweepReads(name)) && Kept(s, slug)
    ensures Kept(Step(s, SweepReads(name)), slug)
  {
    OpenKeeps(s, slug, name);
    var keeper :| KeptBy(s.(store := Open(s.store, name)), slug, keeper);
    assert KeptBy(Step(s, SweepReads(name)), slug, keeper);
  }

  lemma SweepDeleteKeeps(s: State, slug: Slug, name: Name)
    requires Inv(s) && Enabled(s, SweepDeletes(name)) && Kept(s, slug)
    ensures Kept(Step(s, SweepDeletes(name)), slug)
  {
    var keeper :| KeptBy(s, slug, keeper);
    DeleteKeeps(s, slug, name, keeper);
    assert KeptBy(Step(s, SweepDeletes(name)), slug, keeper);
  }

  lemma RemovalKeeps(s: State, slug: Slug, e: Event)
    requires Inv(s) && Enabled(s, e) && (e.SweepDropsStale? || e.Removes?)
    requires ':' !in slug && Kept(s, slug) && Undisturbed(s, e, slug)
    ensures Kept(Step(s, e), slug)
  {
    var keeper :| KeptBy(s, slug, keeper);
    if NameOf(e.name, slug) {
      if e.Removes? {
        PrefixesAreDisjoint(e.name, slug, e.slug);
      } else {
        StaleNamesAreOthers(e.name, slug);
      }
    }
    DeleteKeeps(s, slug, e.name, keeper);
  }

  lemma StepKeeps(s: State, slug: Slug, e: Event)
    requires Inv(s) && Enabled(s, e) && ':' !in slug && Kept(s, slug) && Undisturbed(s, e, slug)
    ensures Inv(Step(s, e)) && Kept(Step(s, e), slug)
  {
    StepKeepsInv(s, e);
    if e.Starts? {
      StartKeeps(s, slug, e);
    } else if e.Records? {
      RecordKeeps(s, slug, e);
    } else if e.Stores? || e.Reopens? {
      WriteKeeps(s, slug, e);
    } else if e.Drops? || e.Abandons? {
      DropKeeps(s, slug, e);
    } else if e.Checks? || e.Lists? || e.Completes? || e.Fails? || e.Crashes? {
      PhaseKeeps(s, slug, e);
    } else if e.SweepReads? {
      SweepReadKeeps(s, slug, e.name);
    } else if e.SweepDeletes? {
      SweepDeleteKeeps(s, slug, e.name);
    } else if e.SweepDropsStale? || e.Removes? {
      RemovalKeeps(s, slug, e);
    } else if e.Opens? {
      OpenKeeps(s, slug, e.name);
    } else {
      PutKeeps(s, slug, e.handle, e.url);
    }
  }

  // ---- Runs ----

  ghost predicate ValidRun(s: State, events: seq<Event>)
    requires Inv(s)
    decreases |events|
  {
    events == [] || (Enabled(s, events[0]) && (StepKeepsInv(s, events[0]); ValidRun(Step(s, events[0]), events[1..])))
  }

  ghost function Exec(s: State, events: seq<Event>): (t: State)
    requires Inv(s) && ValidRun(s, events)
    ensures Inv(t)
    decreases |events|
  {
    if events == [] then s else (StepKeepsInv(s, events[0]); Exec(Step(s, events[0]), events[1..]))
  }

  ghost predicate UndisturbedRun(s: State, events: seq<Event>, slug: Slug)
    requires Inv(s) && ValidRun(s, events)
    decreases |events|
  {
    events == [] ||
    (Undisturbed(s, events[0], slug)
     && (StepKeepsInv(s, events[0]); UndisturbedRun(Step(s, events[0]), events[1..], slug)))
  }

  lemma {:induction false} RunKeeps(s: State, events: seq<Event>, slug: Slug)
    requires Inv(s) && ValidRun(s, events) && ':' !in slug && Kept(s, slug) && UndisturbedRun(s, events, slug)
    ensures Kept(Exec(s, events), slug)
    decreases |events|
  {
    if events != [] {
      StepKeeps(s, slug, events[0]);
      RunKeeps(Step(s, events[0]), events[1..], slug);
    }
  }

  /**
   * A thing with a complete cache keeps one: through any interleaving of
   * preparations, their failures, late fetches, sweeps and crashes, as long as
   * the user does not remove it and no sweep is caught between reading a
   * candidate without metadata and deleting it while the metadata is written.
   */
  lemma CompleteCacheSurvives(s: State, events: seq<Event>, slug: Slug)
    requires Inv(s) && ValidRun(s, events) && ':' !in slug && UndisturbedRun(s, events, slug)
    requires slug !in s.preparations && CondemnedIncomplete(s, slug) && HasComplete(s, slug)
    ensures HasComplete(Exec(s, events), slug)
  {
    var keeper :| Keeper(s, slug, keeper);
    assert KeptBy(s, slug, keeper);
    RunKeeps(s, events, slug);
    var kept :| KeptBy(Exec(s, events), slug, kept);
  }

  /** When a preparation drops an older cache, its candidate's name resolves to a complete cache, before and after. */
  lemma DropsOnlyWhenReplaced(s: State, events: seq<Event>, slug: Slug, deleted: bool)
    requires Inv(s) && ValidRun(s, events) && ':' !in slug && UndisturbedRun(s, events, slug)
    requires slug !in s.preparations && CondemnedIncomplete(s, slug) && HasComplete(s, slug)
    requires Enabled(Exec(s, events), Drops(slug, deleted))
    ensures var t := Exec(s, events);
      Complete(t.store, t.preparations[slug].candidate)
      && Complete(Step(t, Drops(slug, deleted)).store, t.preparations[slug].candidate)
  {
    var keeper :| Keeper(s, slug, keeper);
    assert KeptBy(s, slug, keeper);
    RunKeeps(s, events, slug);
    CleaningKeeper(Exec(s, events), slug);
  }

  /**
   * Once cleaning has begun the preparation is never abandoned, and whatever
   * undisturbed step comes next, the candidate's name resolves to a complete cache.
   */
  lemma CleaningIsFinal(s: State, e: Event, slug: Slug)
    requires Inv(s) && Enabled(s, e) && ':' !in slug && Kept(s, slug) && Undisturbed(s, e, slug)
    requires slug in s.preparations && s.preparations[slug].phase.Cleaning?
    ensures var candidate, t := s.preparations[slug].candidate, Step(s, e);
      && Complete(t.store, candidate)
      && (slug in t.preparations ==>
            t.preparations[slug].phase.Cleaning? && t.preparations[slug].candidate == candidate)
  {
    StepKeeps(s, slug, e);
    CleaningKeeper(s, slug);
    if slug in Step(s, e).preparations {
      CleaningKeeper(Step(s, e), slug);
    }
  }

  /** The steps of one thing's preparation. */
  predicate PreparationStep(e: Event) {
    e.Starts? || e.Stores? || e.Records? || e.Reopens? || e.Checks?
    || e.Lists? || e.Drops? || e.Completes? || e.Fails? || e.Abandons?
  }

  /** A preparation leaves the names of every other thing, and what they resolve to, as they were. */
  lemma OtherThingsUntouched(s: State, e: Event, slug: Slug, name: Name)
    requires Inv(s) && Enabled(s, e) && PreparationStep(e) && e.slug != slug
    requires ':' !in slug && NameOf(name, slug)
    ensures var t := Step(s, e);
      && (name in t.store.names <==> name in s.store.names)
      && (name in s.store.names ==>
            t.store.names[name] == s.store.names[name] &&
            t.store.caches[t.store.names[name]] == s.store.caches[s.store.names[name]])
  {
    if !e.Starts? {
      var candidate := s.preparations[e.slug].candidate;
      if name == candidate {
        PrefixesAreDisjoint(name, slug, e.slug);
      }
      if e.Drops? && name == s.preparations[e.slug].phase.rest[0] {
        PrefixesAreDisjoint(name, slug, e.slug);
      }
    } else if name == e.candidate {
      PrefixesAreDisjoint(name, slug, e.slug);
    }
  }

  // ---- Composing runs ----

  lemma RunCons(s: State, e: Event, rest: seq<Event>)
    requires Inv(s) && Enabled(s, e)
    ensures Inv(Step(s, e))
    ensures ValidRun(s, [e] + rest) <==> ValidRun(Step(s, e), rest)
    ensures ValidRun(s, [e] + rest) ==> Exec(s, [e] + rest) == Exec(Step(s, e), rest)
  {
    StepKeepsInv(s, e);
    assert ([e] + rest)[1..] == rest;
  }

  lemma {:induction false} RunAppend(s: State, a: seq<Event>, b: seq<Event>)
    requires Inv(s) && ValidRun(s, a) && ValidRun(Exec(s, a), b)
    ensures ValidRun(s, a + b) && Exec(s, a + b) == Exec(Exec(s, a), b)
    decreases |a|
  {
    if a == [] {
      assert a + b == b;
    } else {
      StepKeepsInv(s, a[0]);
      assert (a + b)[0] == a[0] && (a + b)[1..] == a[1..] + b;
      RunAppend(Step(s, a[0]), a[1..], b);
    }
  }

  // ---- A preparation whose candidate is exposed can lose every cache ----

  /** The steps from the written metadata to the end of the preparation, and the sweep's deletion. */
  predicate Replaces(e: Event) {
    e.Reopens? || e.Checks? || e.Lists? || e.Drops? || e.Completes? || e.SweepDeletes?
  }

  /** Such a run ends with no complete cache of the thing. */
  ghost predicate Loses(s: State, events: seq<Event>, slug: Slug) {
    Inv(s) && ValidRun(s, events) && (forall e <- events :: Replaces(e)) && !HasComplete(Exec(s, events), slug)
  }

  lemma LosesCons(s: State, e: Event, rest: seq<Event>, slug: Slug)
    requires Inv(s) && Enabled(s, e) && Replaces(e) && Loses(Step(s, e), rest, slug)
    ensures Loses(s, [e] + rest, slug)
  {
    RunCons(s, e, rest);
  }

  lemma SomeListing(names: set<Name>, slug: Slug) returns (listed: seq<Name>)
    ensures forall name :: name in listed <==> name in names && NameOf(name, slug)
  {
    listed := [];
    var rest := names;
    while rest != {}
      invariant rest <= names
      invariant forall name :: name in listed <==> name in names && name !in rest && NameOf(name, slug)
      decreases rest
    {
      var name :| name in rest;
      rest := rest - {name};
      if NameOf(name, slug) {
        listed := listed + [name];
      }
    }
  }

  /** With everything else dropped, the preparation completes and the sweep deletes its candidate. */
  lemma LossAtTheEnd(s: State, slug: Slug) returns (events: seq<Event>)
    requires Inv(s) && slug in s.preparations && s.preparations[slug].phase == Cleaning([]) && Exposed(s, slug)
    requires forall name <- s.store.names :: NameOf(name, slug) ==> name == s.preparations[slug].candidate
    ensures Loses(s, events, slug)
  {
    var sweep := SweepDeletes(s.preparations[slug].candidate);
    StepKeepsInv(s, Completes(slug));
    var t := Step(s, Completes(slug));
    StepKeepsInv(t, sweep);
    assert ValidRun(Step(t, sweep), []) && Exec(Step(t, sweep), []) == Step(t, sweep);
    assert Loses(Step(t, sweep), [], slug);
    LosesCons(t, sweep, [], slug);
    LosesCons(s, Completes(slug), [sweep] + [], slug);
    events := [Completes(slug)] + ([sweep] + []);
  }

  /** One turn of the cleaning loop leaves the candidate exposed and one name less to drop. */
  lemma DropKeepsExposed(s: State, slug: Slug)
    requires Inv(s) && slug in s.preparations && s.preparations[slug].phase.Cleaning? && Exposed(s, slug)
    requires s.preparations[slug].phase.rest != []
    requires forall name <- s.store.names :: NameOf(name, slug) ==>
      name == s.preparations[slug].candidate || name in s.preparations[slug].phase.rest
    ensures var p, t := s.preparations[slug], Step(s, Drops(slug, true));
      && slug in t.preparations && t.preparations[slug] == p.(phase := Cleaning(p.phase.rest[1..])) && Exposed(t, slug)
      && forall name <- t.store.names :: NameOf(name, slug) ==> name == p.candidate || name in p.phase.rest[1..]
  {
    var rest := s.preparations[slug].phase.rest;
    assert rest == [rest[0]] + rest[1..];
  }

  lemma {:induction false} LossInCleaning(s: State, slug: Slug) returns (events: seq<Event>)
    requires Inv(s) && slug in s.preparations && s.preparations[slug].phase.Cleaning? && Exposed(s, slug)
    requires forall name <- s.store.names :: NameOf(name, slug) ==>
      name == s.preparations[slug].candidate || name in s.preparations[slug].phase.rest
    ensures Loses(s, events, slug)
    decreases |s.preparations[slug].phase.rest|
  {
    if s.preparations[slug].phase.rest == [] {
      events := LossAtTheEnd(s, slug);
    } else {
      var drop := Drops(slug, true);
      StepKeepsInv(s, drop);
      DropKeepsExposed(s, slug);
      var rest := LossInCleaning(Step(s, drop), slug);
      LosesCons(s, drop, rest, slug);
      events := [drop] + rest;
    }
  }

  /** The check by name finds each resource in the candidate's own cache, and cleaning begins. */
  lemma {:induction false} LossInVerifying(s: State, slug: Slug) returns (events: seq<Event>)
    requires Inv(s) && slug in s.preparations && s.preparations[slug].phase.Verifying? && Exposed(s, slug)
    requires s.preparations[slug].phase.reopened == s.preparations[slug].handle
    ensures Loses(s, events, slug)
    decreases |s.preparations[slug].urls| - s.preparations[slug].phase.checked
  {
    var p := s.preparations[slug];
    if p.phase.checked == |p.urls| {
      var listed := SomeListing(s.store.names.Keys, slug);
      var list := Lists(slug, listed);
      StepKeepsInv(s, list);
      var rest := LossInCleaning(Step(s, list), slug);
      LosesCons(s, list, rest, slug);
      events := [list] + rest;
    } else {
      var check := Checks(slug);
      assert p.urls[p.phase.checked] in p.urls;
      StepKeepsInv(s, check);
      var rest := LossInVerifying(Step(s, check), slug);
      LosesCons(s, check, rest, slug);
      events := [check] + rest;
    }
  }

  /**
   * From EVERY state in which metadata can be written into a candidate a sweep
   * is about to delete, the preparation can go on to lose the thing's last
   * complete cache, without a removal and without another such write.
   */
  lemma ExposedCanBeLost(s: State, slug: Slug, metadata: Metadata) returns (events: seq<Event>)
    requires Inv(s) && Enabled(s, Records(slug, metadata)) && Exposed(s, slug)
    ensures Loses(Step(s, Records(slug, metadata)), events, slug)
  {
    StepKeepsInv(s, Records(slug, metadata));
    var t := Step(s, Records(slug, metadata));
    StepKeepsInv(t, Reopens(slug));
    var rest := LossInVerifying(Step(t, Reopens(slug)), slug);
    LosesCons(t, Reopens(slug), rest, slug);
    events := [Reopens(slug)] + rest;
  }

  // ---- Exactly when the cache is safe ----

  lemma {:induction false} ReplacingIsUndisturbed(s: State, events: seq<Event>, slug: Slug)
    requires Inv(s) && ValidRun(s, events) && forall e <- events :: Replaces(e)
    ensures UndisturbedRun(s, events, slug)
    decreases |events|
  {
    if events != [] {
      assert Replaces(events[0]);
      StepKeepsInv(s, events[0]);
      ReplacingIsUndisturbed(Step(s, events[0]), events[1..], slug);
    }
  }

  /** Nothing that is undisturbed from here on can lose the thing's last complete cache. */
  ghost predicate Safe(s: State, slug: Slug)
    requires Inv(s)
  {
    forall events :: ValidRun(s, events) && UndisturbedRun(s, events, slug) ==> HasComplete(Exec(s, events), slug)
  }

  lemma KeptIsSafe(s: State, slug: Slug)
    requires Inv(s) && ':' !in slug && Kept(s, slug)
    ensures Safe(s, slug)
  {
    forall events | ValidRun(s, events) && UndisturbedRun(s, events, slug)
      ensures HasComplete(Exec(s, events), slug)
    {
      RunKeeps(s, events, slug);
      var kept :| KeptBy(Exec(s, events), slug, kept);
    }
  }

  /** Writing the metadata leaves the thing safe if and only if its candidate is not exposed at that moment. */
  lemma RecordingIsSafeUnlessExposed(s: State, slug: Slug, metadata: Metadata)
    requires Inv(s) && Enabled(s, Records(slug, metadata)) && Kept(s, slug)
    ensures Inv(Step(s, Records(slug, metadata)))
    ensures Safe(Step(s, Records(slug, metadata)), slug) <==> !Exposed(s, slug)
  {
    StepKeepsInv(s, Records(slug, metadata));
    var t := Step(s, Records(slug, metadata));
    if Exposed(s, slug) {
      var events := ExposedCanBeLost(s, slug, metadata);
      ReplacingIsUndisturbed(t, events, slug);
    } else {
      StepKeeps(s, slug, Records(slug, metadata));
      KeptIsSafe(t, slug);
    }
  }

  /** The thing is safe at every point of the run. */
  ghost predicate SafeThroughout(s: State, events: seq<Event>, slug: Slug)
    requires Inv(s) && ValidRun(s, events)
    decreases |events|
  {
    && Safe(s, slug)
    && (events == [] || (StepKeepsInv(s, events[0]); SafeThroughout(Step(s, events[0]), events[1..], slug)))
  }

  lemma {:induction false} KeptRunsAreSafe(s: State, events: seq<Event>, slug: Slug)
    requires Inv(s) && ValidRun(s, events) && ':' !in slug && Kept(s, slug)
    requires forall e <- events :: e.Removes? ==> e.slug != slug
    ensures SafeThroughout(s, events, slug) <==> UndisturbedRun(s, events, slug)
    decreases |events|
  {
    KeptIsSafe(s, slug);
    if events != [] {
      var e, t := events[0], Step(s, events[0]);
      StepKeepsInv(s, e);
      if Undisturbed(s, e, slug) {
        StepKeeps(s, slug, e);
        KeptRunsAreSafe(t, events[1..], slug);
      } else {
        RecordingIsSafeUnlessExposed(s, slug, e.metadata);
      }
    }
  }

  /**
   * The exact condition.  A thing that starts with a complete cache is safe at
   * every point of a run in which the user does not remove it, if and only if
   * its metadata is never written into a cache a sweep is about to delete.
   */
  lemma SurvivalIsExact(s: State, events: seq<Event>, slug: Slug)
    requires Inv(s) && ValidRun(s, events) && ':' !in slug
    requires forall e <- events :: e.Removes? ==> e.slug != slug
    requires slug !in s.preparations && CondemnedIncomplete(s, slug) && HasComplete(s, slug)
    ensures SafeThroughout(s, events, slug) <==> UndisturbedRun(s, events, slug)
  {
    var keeper :| Keeper(s, slug, keeper);
    assert KeptBy(s, slug, keeper);
    KeptRunsAreSafe(s, events, slug);
  }

  // ---- An atomic sweep ----

  /** Every read of a sweep that condemns a name is followed at once by its deletion. */
  ghost predicate AtomicSweeps(s: State, events: seq<Event>)
    requires Inv(s) && ValidRun(s, events)
    decreases |events|
  {
    events == [] ||
    (StepKeepsInv(s, events[0]);
     var t, rest := Step(s, events[0]), events[1..];
     if t.condemned == {} then AtomicSweeps(t, rest)
     else
       rest == [] ||
       (events[0].SweepReads? && rest[0] == SweepDeletes(events[0].name)
        && (StepKeepsInv(t, rest[0]); AtomicSweeps(Step(t, rest[0]), rest[1..]))))
  }

  lemma {:induction false} AtomicIsUndisturbed(s: State, events: seq<Event>, slug: Slug)
    requires Inv(s) && ValidRun(s, events) && s.condemned == {} && AtomicSweeps(s, events)
    requires forall e <- events :: e.Removes? ==> e.slug != slug
    ensures UndisturbedRun(s, events, slug)
    decreases |events|
  {
    if events != [] {
      var t, rest := Step(s, events[0]), events[1..];
      StepKeepsInv(s, events[0]);
      assert Undisturbed(s, events[0], slug);
      if t.condemned == {} {
        AtomicIsUndisturbed(t, rest, slug);
      } else if rest != [] {
        StepKeepsInv(t, rest[0]);
        assert Undisturbed(t, rest[0], slug) && Step(t, rest[0]).condemned == {};
        AtomicIsUndisturbed(Step(t, rest[0]), rest[1..], slug);
      }
    }
  }

  /** With an atomic sweep a complete cache survives every run in which the user does not remove the thing. */
  lemma AtomicSweepsAreSafe(s: State, events: seq<Event>, slug: Slug)
    requires Inv(s) && ValidRun(s, events) && ':' !in slug && s.condemned == {} && AtomicSweeps(s, events)
    requires forall e <- events :: e.Removes? ==> e.slug != slug
    requires slug !in s.preparations && HasComplete(s, slug)
    ensures SafeThroughout(s, events, slug) && HasComplete(Exec(s, events), slug)
  {
    AtomicIsUndisturbed(s, events, slug);
    SurvivalIsExact(s, events, slug);
    CompleteCacheSurvives(s, events, slug);
  }

  // ---- Any preparation can be exposed ----

  /** A run of preparation and sweep steps that ends with no complete cache of the thing. */
  ghost predicate SweepLoses(s: State, events: seq<Event>, slug: Slug) {
    && Inv(s) && ValidRun(s, events) && !HasComplete(Exec(s, events), slug)
    && forall e <- events :: PreparationStep(e) || e.SweepReads? || e.SweepDeletes?
  }

  lemma SweepLosesCons(s: State, e: Event, rest: seq<Event>, slug: Slug)
    requires Inv(s) && Enabled(s, e) && SweepLoses(Step(s, e), rest, slug)
    requires PreparationStep(e) || e.SweepReads? || e.SweepDeletes?
    ensures SweepLoses(s, [e] + rest, slug)
  {
    RunCons(s, e, rest);
  }

  /** The resources still to be fetched are stored, and the metadata is written into the exposed candidate. */
  lemma {:induction false} LossInFetching(s: State, slug: Slug, stored: nat) returns (events: seq<Event>)
    requires Inv(s) && slug in s.preparations && s.preparations[slug].phase.Fetching? && Exposed(s, slug)
    requires stored <= |s.preparations[slug].urls|
    requires forall k :: 0 <= k < stored ==>
      s.preparations[slug].urls[k] in s.store.caches[s.preparations[slug].handle].urls
    ensures SweepLoses(s, events, slug)
    decreases |s.preparations[slug].urls| - stored
  {
    var p := s.preparations[slug];
    if stored == |p.urls| {
      var record := Records(slug, Metadata(0, p.urls, 0, 0));
      StepKeepsInv(s, record);
      var rest := ExposedCanBeLost(s, slug, record.metadata);
      SweepLosesCons(s, record, rest, slug);
      events := [record] + rest;
    } else {
      var store := Stores(slug, p.urls[stored]);
      StepKeepsInv(s, store);
      var rest := LossInFetching(Step(s, store), slug, stored + 1);
      SweepLosesCons(s, store, rest, slug);
      events := [store] + rest;
    }
  }

  /**
   * The read and the delete of a sweep are two awaits, so EVERY preparation that
   * can start can lose the thing's last complete cache: the sweep reads the new
   * candidate, the preparation replaces the older caches, and the sweep deletes.
   */
  lemma SplitSweepCanLoseTheCache(s: State, slug: Slug, urls: seq<Url>, candidate: Name) returns (events: seq<Event>)
    requires Inv(s) && Enabled(s, Starts(slug, urls, candidate))
    ensures SweepLoses(s, events, slug)
  {
    var start, read := Starts(slug, urls, candidate), SweepReads(candidate);
    StepKeepsInv(s, start);
    var t := Step(s, start);
    StepKeepsInv(t, read);
    var rest := LossInFetching(Step(t, read), slug, 0);
    SweepLosesCons(t, read, rest, slug);
    SweepLosesCons(s, start, [read] + rest, slug);
    events := [start] + ([read] + rest);
  }
}
