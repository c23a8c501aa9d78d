/**
  The cache-aside repository (`MongoDataAccess`): one instance per collection,
  deciding when a read is served from the collection's snapshot and when it
  goes to the database, and how the snapshot is patched after writes.

  The two-state behaviour of each read or write is stated once, as a
  predicate over the cache contents before and after, the collection's
  documents and the outcome; the methods of `MongoDataAccess` are proved to
  establish it, and the lemmas below are proved from it.
*/
module DataAccess {
  import opened ApiTypes
  import opened DataCache
  import opened MongoHelper

  /** `ErrorLabel` */
  datatype ErrorLabel = NotFound | AlreadyExists | Unauthorized | Unknown | Unsupported | NotPossible

  /** The message each label carries. */
  function Message(e: ErrorLabel): string {
    match e
    case NotFound => "Not found"
    case AlreadyExists => "Already exists"
    case Unauthorized => "Unauthorized"
    case Unknown => "Unknown error"
    case Unsupported => "Unsupported operation"
    case NotPossible => "Not possible"
  }

  /** No two labels share a message, so a caller can tell them apart by message. */
  lemma MessagesDistinct(a: ErrorLabel, b: ErrorLabel)
    ensures Message(a) == Message(b) ==> a == b
  {
    if Message(a) == Message(b) {
      assert Message(a)[0] == Message(b)[0] && |Message(a)| == |Message(b)|;
      if a.Unknown? || b.Unknown? || a.Unsupported? || b.Unsupported? {
        assert Message(a)[1] == Message(b)[1] && Message(a)[2] == Message(b)[2];
      }
    }
  }

  /** Why a repository call rejects. */
  datatype Failure =
    | Labelled(error: ErrorLabel)   // `new Error(ErrorLabel.X)`
    | TransportError                // an error thrown by the database driver
    | TypeError                     // `null.id` inside updateCache

  datatype Result<+T> = Ok(value: T) | Err(failure: Failure)

  // ---------------------------------------------------------------------------
  // What each operation does, as relations between the states before and after

  /** `getDocs`: serve a present snapshot when caching is on; otherwise read all and store it as the snapshot. */
  predicate DocsRead(cacheData: bool, name: string, before: CacheState, after: CacheState, coll: Collection,
                     up: bool, r: Result<seq<Doc>>)
  {
    if cacheData && GetFromCache(before, name).Some? then
      r == Ok(GetFromCache(before, name).value) && after == before
    else if up then
      r.Ok? && IsListing(r.value, coll, map[]) && after == before[name := Snapshot(r.value)]
    else
      r == Err(TransportError) && after == before
  }

  /**
    `getDocsBySelector`. With caching off the database answers. With caching
    on, `snapshot` is what `getDocs` produced; a non-empty filtered snapshot is
    returned unless a refresh is forced; otherwise the database is asked, an
    empty answer fails with NOT_FOUND, and only the first fetched document is
    patched into the snapshot.
  */
  predicate SelectorRead(cacheData: bool, name: string, before: CacheState, after: CacheState, coll: Collection,
                         selector: Selector, avoidCache: bool, up: bool, r: Result<seq<Doc>>, snapshot: seq<Doc>)
  {
    if !cacheData then
      after == before && (if up then r.Ok? && IsListing(r.value, coll, selector) else r == Err(TransportError))
    else if GetFromCache(before, name).None? && !up then
      r == Err(TransportError) && after == before
    else
      && DocsRead(cacheData, name, before, before[name := Snapshot(snapshot)], coll, up, Ok(snapshot))
      && var fetched := before[name := Snapshot(snapshot)];
      if Filter(snapshot, selector) != [] && !avoidCache then
        r == Ok(Filter(snapshot, selector)) && after == fetched
      else if !up then
        r == Err(TransportError) && after == fetched
      else if !AnyMatch(coll, selector) then
        r == Err(Labelled(NotFound)) && after == fetched
      else
        r.Ok? && r.value != [] && IsListing(r.value, coll, selector)
        && after == AfterUpdateCache(fetched, name, r.value[0])
  }

  /** `(await getDocsBySelector(...))?.[0]` */
  function FirstOf(docs: Result<seq<Doc>>): (r: Result<Option<Doc>>)
    ensures r.Err? <==> docs.Err?
    ensures r.Ok? ==> (r.value.Some? <==> docs.value != [])
    ensures r.Ok? && r.value.Some? ==> r.value.value == docs.value[0]
  {
    match docs
    case Err(f) => Err(f)
    case Ok(s) => Ok(if s == [] then None else Some(s[0]))
  }

  /**
    After a write: a document, or `null` (an unacknowledged write, which
    `typeof === "object"` lets through), is patched into the snapshot when
    caching is on; patching with `null` throws when the snapshot is not empty.
  */
  predicate PatchedAfterWrite(cacheData: bool, name: string, before: CacheState, after: CacheState,
                              u: UpsertResult, r: Result<UpsertResult>)
  {
    if !cacheData then after == before && r == Ok(u)
    else match u
      case Written(d) => after == AfterUpdateCache(before, name, d) && r == Ok(u)
      case Unacknowledged =>
        && after == UpdateCacheWithNull(before, name).1
        && r == (if UpdateCacheWithNull(before, name).0 == ThrowsTypeError then Err(TypeError) else Ok(u))
      case Failed(_) => after == before && r == Ok(u)
  }

  // ---------------------------------------------------------------------------
  // Properties

  /** Two `getDocs` calls in a row with caching on: the second serves the first's result and changes nothing. */
  lemma ReadAllTwiceServesSnapshot(name: string, s0: CacheState, s1: CacheState, s2: CacheState, coll: Collection,
                                   coll': Collection, up1: bool, up2: bool, r1: Result<seq<Doc>>, r2: Result<seq<Doc>>)
    requires DocsRead(true, name, s0, s1, coll, up1, r1) && r1.Ok?
    requires DocsRead(true, name, s1, s2, coll', up2, r2)
    ensures r2 == r1 && s2 == s1
  {
  }

  /** `getDocs` stores what it read as the snapshot even when caching is off. */
  lemma ReadAllStoresSnapshotEvenUncached(name: string, before: CacheState, after: CacheState, coll: Collection,
                                          r: Result<seq<Doc>>)
    requires DocsRead(false, name, before, after, coll, true, r)
    ensures r.Ok? && GetFromCache(after, name) == Some(r.value)
  {
  }

  /** With caching off a selector read never fails with NOT_FOUND and never touches the cache. */
  lemma UncachedSelectorReadNeverNotFound(name: string, before: CacheState, after: CacheState, coll: Collection,
                                          selector: Selector, avoidCache: bool, up: bool, r: Result<seq<Doc>>, snapshot: seq<Doc>)
    requires SelectorRead(false, name, before, after, coll, selector, avoidCache, up, r, snapshot)
    ensures r != Err(Labelled(NotFound)) && after == before
  {
  }

  /** With caching on, a warm snapshot with matches and no forced refresh is filtered and nothing is fetched or changed. */
  lemma SelectorHitServesFilteredSnapshot(name: string, before: CacheState, after: CacheState, coll: Collection,
                                          selector: Selector, up: bool, r: Result<seq<Doc>>, snapshot: seq<Doc>)
    requires SelectorRead(true, name, before, after, coll, selector, false, up, r, snapshot)
    requires GetFromCache(before, name).Some? && Filter(GetFromCache(before, name).value, selector) != []
    ensures r == Ok(Filter(GetFromCache(before, name).value, selector)) && after == before
  {
  }

  /** On a selector miss only the first fetched document is patched in: a second fetched document may stay out of the snapshot. */
  lemma MissPatchesOnlyFirst(name: string, before: CacheState, after: CacheState, coll: Collection,
                             selector: Selector, avoidCache: bool, up: bool, r: Result<seq<Doc>>, snapshot: seq<Doc>)
    requires SelectorRead(true, name, before, after, coll, selector, avoidCache, up, r, snapshot)
    requires Filter(snapshot, selector) == [] || avoidCache
    requires r.Ok? && |r.value| >= 2 && r.value[1] !in snapshot
    ensures GetFromCache(after, name).Some?
    ensures r.value[1] !in GetFromCache(after, name).value
  {
    var d0, d1 := r.value[0], r.value[1];
    var p := Patched(snapshot, d0);
    assert GetFromCache(after, name) == Some(p);
    assert d1 != d0;
    if ContainsId(snapshot, d0) {
      assert p == Replaced(snapshot, d0);
      forall i | 0 <= i < |p| ensures p[i] != d1 {
        assert p[i] == d0 || p[i] == snapshot[i];
      }
    } else {
      assert p == snapshot + [d0];
    }
  }

  /** A document of a field-matching filter is a database match, and back, for selectors without `null`. */
  lemma MatchesAgreeWithQuery(d: Doc, selector: Selector)
    requires forall k :: k in selector ==> selector[k] != Null
    ensures Matches(d, selector) <==> QueryMatches(d, selector)
  {
  }

  /**
    The snapshot-first strategy is sound when the snapshot is a complete
    listing of the collection: filtering it lists exactly what the database
    would return for a selector without `null`.
  */
  lemma CompleteSnapshotAnswersLikeDatabase(snapshot: seq<Doc>, coll: Collection, selector: Selector)
    requires IsListing(snapshot, coll, map[])
    requires forall k :: k in selector ==> selector[k] != Null
    ensures IsListing(Filter(snapshot, selector), coll, selector)
  {
    var f := Filter(snapshot, selector);
    FilterKeepsDistinct(snapshot, selector);
    forall i | 0 <= i < |f| ensures f[i] in coll.Values && QueryMatches(f[i], selector) {
      FilterMembership(snapshot, selector, f[i]);
      MatchesAgreeWithQuery(f[i], selector);
    }
    forall k | k in coll && QueryMatches(coll[k], selector) ensures coll[k] in f {
      MatchesAgreeWithQuery(coll[k], selector);
      FilterMembership(snapshot, selector, coll[k]);
    }
  }

  /** A document written while caching is on is what `getFromCacheById` then finds in a present snapshot. */
  lemma WrittenDocIsCached(name: string, before: CacheState, after: CacheState, d: Doc, id: string, r: Result<UpsertResult>)
    requires PatchedAfterWrite(true, name, before, after, Written(d), r)
    requires GetFromCache(before, name).Some? && HasId(d, id)
    ensures r == Ok(Written(d))
    ensures GetFromCacheById(after, name, id) == Some(d)
  {
    UpdateThenGetById(before, name, d, id);
  }

  /** After `deleteDocById` with caching on and the database reachable, the id is gone from both the snapshot and the database. */
  lemma DeletedIdIsGone(name: string, before: CacheState, db: Database, id: string)
    requires WellFormed(db)
    ensures GetFromCacheById(AfterRemoveFromCache(before, name, id), name, id) == None
    ensures Lookup(AfterDelete(db, name, IdSelector(id)), name, id) == None
  {
    RemoveThenGetById(before, name, id);
    var coll := CollectionOf(db, name);
    if id in coll {
      assert QueryMatches(coll[id], IdSelector(id));
    }
  }

  /** Filtering a snapshot by `{numCode: 5}` keeps a document with `numCode: 5` and one whose `numCode` array holds 5, in order. */
  lemma NumCodeScenario()
    ensures var a := map["id" := Str("a"), "numCode" := Num(5)];
      var b := map["id" := Str("b")];
      var c := map["id" := Str("c"), "numCode" := Arr([Num(4), Num(5)])];
      Filter([a, b, c], map["numCode" := Num(5)]) == [a, c]
  {
    var a := map["id" := Str("a"), "numCode" := Num(5)];
    var b := map["id" := Str("b")];
    var c := map["id" := Str("c"), "numCode" := Arr([Num(4), Num(5)])];
    var sel: Selector := map["numCode" := Num(5)];
    assert Matches(a, sel);
    assert !Matches(b, sel) by {
      assert !FieldMatches(b, "numCode", Num(5));
    }
    assert Matches(c, sel) by {
      assert Num(5) in c["numCode"].items;
    }
    assert [a, b, c][1..] == [b, c];
    assert [b, c][1..] == [c];
    assert [c][1..] == [];
    assert Filter([c], sel) == [c];
    assert Filter([b, c], sel) == [c];
    assert Filter([a, b, c], sel) == [a, c];
  }

  // ---------------------------------------------------------------------------
  // The repository

  class MongoDataAccess {
    var collectionName: string
    var cacheData: bool
    /** The process-wide cache every repository shares. */
    const cache: MemCache
    /** The database. */
    const store: DocumentStore

    ghost predicate Valid()
      reads this, store
    {
      store.Valid()
    }

    constructor(collection: string, cache: MemCache, store: DocumentStore, activateCache: bool := true)
      requires store.Valid()
      ensures Valid()
      ensures collectionName == collection && cacheData == activateCache
      ensures this.cache == cache && this.store == store
    {
      collectionName := collection;
      cacheData := activateCache;
      this.cache := cache;
      this.store := store;
    }

    /** `getDocs` */
    method GetDocs(up: bool) returns (r: Result<seq<Doc>>)
      requires Valid()
      modifies cache
      ensures DocsRead(cacheData, collectionName, old(cache.entries), cache.entries,
                       CollectionOf(store.db, collectionName), up, r)
    {
      if cacheData {
        var cached := GetFromCache(cache.entries, collectionName);
        if cached.Some? {
          return Ok(cached.value);
        }
      }
      var data := store.GetDocumentsForCollection(collectionName, map[], up);
      if data.Thrown? {
        return Err(TransportError);
      }
      var ok := cache.SetCache(collectionName, data.value);
      r := Ok(data.value);
    }

    /** `getDocsBySelector`; `snapshot` is the collection `getDocs` produced on the cached path. */
    method GetDocsBySelector(selector: Selector, avoidCache: bool, up: bool) returns (r: Result<seq<Doc>>, ghost snapshot: seq<Doc>)
      requires Valid()
      modifies cache
      ensures SelectorRead(cacheData, collectionName, old(cache.entries), cache.entries,
                           CollectionOf(store.db, collectionName), selector, avoidCache, up, r, snapshot)
    {
      snapshot := [];
      if !cacheData {
        var data := store.GetDocumentsForCollection(collectionName, selector, up);
        if data.Thrown? {
          return Err(TransportError), snapshot;
        }
        return Ok(data.value), snapshot;
      }
      var collection := GetDocs(up);
      if collection.Err? {
        return Err(collection.failure), snapshot;
      }
      snapshot := collection.value;
      var result := FilterBySelector(collection.value, selector);
      if |result| == 0 || avoidCache {
        // a probable cache miss, or a forced refresh
        var data := store.GetDocumentsForCollection(collectionName, selector, up);
        if data.Thrown? {
          return Err(TransportError), snapshot;
        }
        ListingEmptyIff(data.value, CollectionOf(store.db, collectionName), selector);
        if |data.value| == 0 {
          return Err(Labelled(NotFound)), snapshot;
        }
        var ok := cache.UpdateCache(collectionName, data.value[0]);
        return Ok(data.value), snapshot;
      }
      r := Ok(result);
    }

    /** `getDocBySelector`: the first document `getDocsBySelector` returns. */
    method GetDocBySelector(selector: Selector, avoidCache: bool, up: bool)
      returns (r: Result<Option<Doc>>, ghost docs: Result<seq<Doc>>, ghost snapshot: seq<Doc>)
      requires Valid()
      modifies cache
      ensures SelectorRead(cacheData, collectionName, old(cache.entries), cache.entries,
                           CollectionOf(store.db, collectionName), selector, avoidCache, up, docs, snapshot)
      ensures r == FirstOf(docs)
    {
      var all;
      all, snapshot := GetDocsBySelector(selector, avoidCache, up);
      docs := all;
      r := FirstOf(all);
    }

    /** `getDocById`: `getDocBySelector({ id })`. */
    method GetDocById(id: string, avoidCache: bool, up: bool)
      returns (r: Result<Option<Doc>>, ghost docs: Result<seq<Doc>>, ghost snapshot: seq<Doc>)
      requires Valid()
      modifies cache
      ensures SelectorRead(cacheData, collectionName, old(cache.entries), cache.entries,
                           CollectionOf(store.db, collectionName), IdSelector(id), avoidCache, up, docs, snapshot)
      ensures r == FirstOf(docs)
    {
      r, docs, snapshot := GetDocBySelector(IdSelector(id), avoidCache, up);
    }

    /** `tryGetDocBySelector`: like `getDocBySelector`, with every failure turned into `null`. */
    method TryGetDocBySelector(selector: Selector, avoidCache: bool, up: bool)
      returns (r: Option<Doc>, ghost docs: Result<seq<Doc>>, ghost snapshot: seq<Doc>)
      requires Valid()
      modifies cache
      ensures SelectorRead(cacheData, collectionName, old(cache.entries), cache.entries,
                           CollectionOf(store.db, collectionName), selector, avoidCache, up, docs, snapshot)
      ensures r == if docs.Ok? && docs.value != [] then Some(docs.value[0]) else None
    {
      var first;
      first, docs, snapshot := GetDocBySelector(selector, avoidCache, up);
      r := if first.Ok? then first.value else None;
    }

    /** `tryGetDocsBySelector`: like `getDocsBySelector` without a forced refresh, with every failure turned into `[]`. */
    method TryGetDocsBySelector(selector: Selector, up: bool)
      returns (r: seq<Doc>, ghost docs: Result<seq<Doc>>, ghost snapshot: seq<Doc>)
      requires Valid()
      modifies cache
      ensures SelectorRead(cacheData, collectionName, old(cache.entries), cache.entries,
                           CollectionOf(store.db, collectionName), selector, false, up, docs, snapshot)
      ensures r == if docs.Ok? then docs.value else []
    {
      var all;
      all, snapshot := GetDocsBySelector(selector, false, up);
      docs := all;
      r := if all.Ok? then all.value else [];
    }

    /** The `typeof result === "object" && this.cacheData` patch shared by the three writes. */
    method PatchAfterWrite(result: UpsertResult) returns (r: Result<UpsertResult>)
      modifies cache
      ensures PatchedAfterWrite(cacheData, collectionName, old(cache.entries), cache.entries, result, r)
    {
      r := Ok(result);
      if cacheData {
        match result
        case Written(d) =>
          var ok := cache.UpdateCache(collectionName, d);
        case Unacknowledged =>
          var ok, typeError := cache.UpdateCacheNull(collectionName);
          if typeError {
            r := Err(TypeError);
          }
        case Failed(_) =>
      }
    }

    /** `createDoc`: upsert with `create = true`; DOC_ALREADY_EXISTS becomes ALREADY_EXISTS. */
    method CreateDoc(doc: Doc, now: int, fault: Fault) returns (r: Result<UpsertResult>)
      requires Valid()
      requires "id" in doc && doc["id"].Str?
      modifies cache, store
      ensures Valid()
      ensures var u := UpsertOutcome(old(Lookup(store.db, collectionName, doc["id"].s)), doc, Some(true), None, now, fault);
        && store.db == AfterUpsert(old(store.db), collectionName, doc["id"].s, u)
        && if u == Failed(DocAlreadyExists) then
             r == Err(Labelled(AlreadyExists)) && cache.entries == old(cache.entries)
           else
             PatchedAfterWrite(cacheData, collectionName, old(cache.entries), cache.entries, u, r)
    {
      var result := store.UpsertDocument(collectionName, doc, Some(true), None, now, fault);
      if result == Failed(DocAlreadyExists) {
        return Err(Labelled(AlreadyExists));
      }
      r := PatchAfterWrite(result);
    }

    /**
      `updateDoc`: upsert with `create = false`; DOC_DOES_NOT_EXIST becomes
      NOT_FOUND and SECURITY_CHECK_FAILED would become UNAUTHORIZED, which
      `create = false` never lets happen.
    */
    method UpdateDoc(doc: Doc, securityCheck: Option<map<string, Value>>, now: int, fault: Fault) returns (r: Result<UpsertResult>)
      requires Valid()
      requires "id" in doc && doc["id"].Str?
      modifies cache, store
      ensures Valid()
      ensures var u := UpsertOutcome(old(Lookup(store.db, collectionName, doc["id"].s)), doc, Some(false), securityCheck, now, fault);
        && store.db == AfterUpsert(old(store.db), collectionName, doc["id"].s, u)
        && if u == Failed(DocDoesNotExist) then
             r == Err(Labelled(NotFound)) && cache.entries == old(cache.entries)
           else if u == Failed(SecurityCheckFailed) then
             r == Err(Labelled(Unauthorized)) && cache.entries == old(cache.entries)
           else
             PatchedAfterWrite(cacheData, collectionName, old(cache.entries), cache.entries, u, r)
      ensures r != Err(Labelled(Unauthorized))
    {
      UpdateIgnoresSecurityCheck(Lookup(store.db, collectionName, doc["id"].s), doc, securityCheck, now, fault);
      var result := store.UpsertDocument(collectionName, doc, Some(false), securityCheck, now, fault);
      if result == Failed(DocDoesNotExist) {
        return Err(Labelled(NotFound));
      }
      if result == Failed(SecurityCheckFailed) {
        return Err(Labelled(Unauthorized));
      }
      r := PatchAfterWrite(result);
    }

    /** `upsertDoc`: upsert with `create` and the security check left undefined; error codes come back as values. */
    method UpsertDoc(doc: Doc, now: int, fault: Fault) returns (r: Result<UpsertResult>)
      requires Valid()
      requires "id" in doc && doc["id"].Str?
      modifies cache, store
      ensures Valid()
      ensures var u := UpsertOutcome(old(Lookup(store.db, collectionName, doc["id"].s)), doc, None, None, now, fault);
        && store.db == AfterUpsert(old(store.db), collectionName, doc["id"].s, u)
        && PatchedAfterWrite(cacheData, collectionName, old(cache.entries), cache.entries, u, r)
    {
      var result := store.UpsertDocument(collectionName, doc, None, None, now, fault);
      r := PatchAfterWrite(result);
    }

    /** `deleteDocById`: prune the snapshot first, then delete in the database and report whether anything went. */
    method DeleteDocById(id: string, up: bool) returns (r: Result<bool>)
      requires Valid()
      modifies cache, store
      ensures Valid()
      ensures cache.entries == if cacheData then AfterRemoveFromCache(old(cache.entries), collectionName, id) else old(cache.entries)
      ensures up ==> r == Ok(old(Lookup(store.db, collectionName, id)).Some?)
      ensures up ==> store.db == AfterDelete(old(store.db), collectionName, IdSelector(id))
      ensures !up ==> r == Err(TransportError) && store.db == old(store.db)
    {
      if cacheData {
        var ok := cache.RemoveFromCache(collectionName, id);
      }
      var deleted := store.DeleteDocumentsForCollection(collectionName, IdSelector(id), up);
      if deleted.Thrown? {
        return Err(TransportError);
      }
      r := Ok(deleted.value);
    }
  }
}
