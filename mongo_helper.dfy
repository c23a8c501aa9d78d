/**
  The document-store gateway: `find`, the upsert decision and merge logic, and
  `deleteMany`, over an abstract database that maps a collection name to its
  documents keyed by `id`. Connections, cursors and the wire protocol are not
  modelled; whether the database is reachable, and how a write fails, are
  parameters of each call.
*/
module MongoHelper {
  import opened ApiTypes

  /** `DbError` */
  datatype DbError = DocAlreadyExists | DocDoesNotExist | SecurityCheckFailed

  /** What `upsertDocument` resolves to: the written document, an error code, or `null`. */
  datatype UpsertResult =
    | Written(doc: Doc)
    | Failed(error: DbError)
    | Unacknowledged

  /** How the database behaves during one `upsertDocument` call. */
  datatype Fault =
    | Healthy
    | ConnectFails          // connect or the lookup of the existing document throws
    | WriteThrows           // `updateOne` throws
    | WriteUnacknowledged   // `updateOne` answers `acknowledged: false`

  /** A read or a delete either answers or throws a transport error. */
  datatype Reply<+T> = Done(value: T) | Thrown

  /** One collection: its documents by `id`. */
  type Collection = map<string, Doc>

  /** The database: collections by name; a missing collection reads as empty. */
  type Database = map<string, Collection>

  /** Every stored document carries the string `id` it is stored under. */
  predicate KeyedById(coll: Collection) {
    forall k :: k in coll ==> HasId(coll[k], k)
  }

  predicate WellFormed(db: Database) {
    forall name :: name in db ==> KeyedById(db[name])
  }

  function CollectionOf(db: Database, collectionName: string): (coll: Collection)
    ensures WellFormed(db) ==> KeyedById(coll)
  {
    if collectionName in db then db[collectionName] else map[]
  }

  // ---------------------------------------------------------------------------
  // Queries

  /**
    The database's equality query on one field: the field equals the value or
    is an array holding it; `null` also matches a missing field.
  */
  predicate QueryFieldMatches(d: Doc, k: string, v: Value) {
    if k in d then d[k] == v || (d[k].Arr? && v in d[k].items) else v == Null
  }

  predicate QueryMatches(d: Doc, filter: Selector) {
    forall k :: k in filter ==> QueryFieldMatches(d, k, filter[k])
  }

  /** `s` lists exactly the matching documents of `coll`, each once, in an order left open. */
  predicate IsListing(s: seq<Doc>, coll: Collection, filter: Selector) {
    && Distinct(s)
    && (forall i :: 0 <= i < |s| ==> s[i] in coll.Values && QueryMatches(s[i], filter))
    && (forall k :: k in coll && QueryMatches(coll[k], filter) ==> coll[k] in s)
  }

  predicate AnyMatch(coll: Collection, filter: Selector) {
    exists k :: k in coll && QueryMatches(coll[k], filter)
  }

  /** A listing is empty exactly when nothing in the collection matches. */
  lemma ListingEmptyIff(s: seq<Doc>, coll: Collection, filter: Selector)
    requires IsListing(s, coll, filter)
    ensures s == [] <==> !AnyMatch(coll, filter)
  {
    if s != [] {
      assert s[0] in coll.Values;
      var k :| k in coll && coll[k] == s[0];
      assert QueryMatches(coll[k], filter);
    }
  }

  /** The lookup by `{ id }`: in a collection keyed by id, only the document stored under that id matches. */
  function Lookup(db: Database, collectionName: string, id: string): (r: Option<Doc>)
    requires WellFormed(db)
    ensures r.Some? <==> AnyMatch(CollectionOf(db, collectionName), IdSelector(id))
    ensures r.Some? ==> r.value == CollectionOf(db, collectionName)[id]
  {
    var coll := CollectionOf(db, collectionName);
    if id in coll then
      assert QueryMatches(coll[id], IdSelector(id));
      Some(coll[id])
    else
      assert forall k :: k in coll ==> !QueryMatches(coll[k], IdSelector(id)) by {
        forall k | k in coll ensures !QueryMatches(coll[k], IdSelector(id)) {
          assert HasId(coll[k], k);
        }
      }
      None
  }

  // ---------------------------------------------------------------------------
  // Upsert: decision and merge

  /** Every checked field of the stored document is strictly equal to the expected value. */
  predicate SecurityCheckPasses(existing: Doc, securityCheck: map<string, Value>) {
    forall k :: k in securityCheck ==> StrictEq(Field(existing, k), Some(securityCheck[k]))
  }

  /**
    The checks made before writing: with `create` given, a create of an
    existing document or an update of a missing one is refused; with `create`
    undefined, the security check runs against an existing document.
    None means the write goes ahead (`result === null`).
  */
  function Verdict(existing: Option<Doc>, create: Option<bool>, securityCheck: Option<map<string, Value>>): (r: Option<DbError>)
    ensures r == Some(DocAlreadyExists) <==> create == Some(true) && existing.Some?
    ensures r == Some(DocDoesNotExist) <==> create == Some(false) && existing.None?
    ensures r == Some(SecurityCheckFailed) <==>
      create.None? && existing.Some? && securityCheck.Some? && !SecurityCheckPasses(existing.value, securityCheck.value)
  {
    if create.Some? then
      if existing.Some? && create.value then Some(DocAlreadyExists)
      else if existing.None? && !create.value then Some(DocDoesNotExist)
      else None
    else if existing.Some? && securityCheck.Some? && !SecurityCheckPasses(existing.value, securityCheck.value) then
      Some(SecurityCheckFailed)
    else None
  }

  /** The error reported when something throws: `create ? DOC_ALREADY_EXISTS : DOC_DOES_NOT_EXIST`. */
  function ErrorOnThrow(create: Option<bool>): (e: DbError)
    ensures e == DocAlreadyExists <==> create == Some(true)
    ensures e != SecurityCheckFailed
  {
    if create == Some(true) then DocAlreadyExists else DocDoesNotExist
  }

  const Stamps: set<string> := {"active", "creationDate", "latestUpdate"}

  /**
    The document to write: an existing document merged with the input (input
    fields win) and a fresh `latestUpdate`; a new document is the input with
    `active`, `creationDate` and `latestUpdate` set, overriding the input.
  */
  function Stamped(existing: Option<Doc>, doc: Doc, now: int): (r: Doc)
    ensures "latestUpdate" in r && r["latestUpdate"] == Num(now)
    ensures existing.Some? ==> r.Keys == existing.value.Keys + doc.Keys + {"latestUpdate"}
    ensures existing.Some? ==> forall k :: k in doc && k != "latestUpdate" ==> r[k] == doc[k]
    ensures existing.Some? ==> forall k :: k in existing.value && k !in doc && k != "latestUpdate" ==> r[k] == existing.value[k]
    ensures existing.None? ==> r.Keys == doc.Keys + Stamps
    ensures existing.None? ==> r["active"] == Bool(true) && r["creationDate"] == Num(now)
    ensures existing.None? ==> forall k :: k in doc && k !in Stamps ==> r[k] == doc[k]
  {
    match existing
    case Some(e) => e + doc + map["latestUpdate" := Num(now)]
    case None => doc + map["active" := Bool(true), "creationDate" := Num(now), "latestUpdate" := Num(now)]
  }

  /** The outcome of `upsertDocument` given the stored document, the arguments and the database's behaviour. */
  function UpsertOutcome(existing: Option<Doc>, doc: Doc, create: Option<bool>, securityCheck: Option<map<string, Value>>,
                         now: int, fault: Fault): (r: UpsertResult)
    ensures create == Some(true) && existing.Some? ==> r == Failed(DocAlreadyExists)
    ensures create == Some(false) && existing.None? ==> r == Failed(DocDoesNotExist)
    ensures r == Failed(SecurityCheckFailed) <==>
      fault != ConnectFails && Verdict(existing, create, securityCheck) == Some(SecurityCheckFailed)
    ensures r.Written? <==> fault == Healthy && Verdict(existing, create, securityCheck).None?
    ensures r.Written? ==> r.doc == Stamped(existing, doc, now)
    ensures r.Unacknowledged? <==> fault == WriteUnacknowledged && Verdict(existing, create, securityCheck).None?
    ensures fault == ConnectFails ==> r == Failed(ErrorOnThrow(create))
    ensures fault != ConnectFails && Verdict(existing, create, securityCheck).Some? ==>
      r == Failed(Verdict(existing, create, securityCheck).value)
    ensures fault == WriteThrows && Verdict(existing, create, securityCheck).None? ==> r == Failed(ErrorOnThrow(create))
  {
    if fault.ConnectFails? then Failed(ErrorOnThrow(create))
    else match Verdict(existing, create, securityCheck)
      case Some(e) => Failed(e)
      case None =>
        match fault
        case WriteThrows => Failed(ErrorOnThrow(create))
        case WriteUnacknowledged => Unacknowledged
        case Healthy => Written(Stamped(existing, doc, now))
  }

  /** `$set` of the new document's fields onto what is stored under the filter (nothing, for an insert). */
  function SetFields(stored: Option<Doc>, newDoc: Doc): Doc {
    match stored
    case Some(e) => e + newDoc
    case None => newDoc
  }

  /** The database after an upsert of the document with `id`. */
  function AfterUpsert(db: Database, collectionName: string, id: string, r: UpsertResult): (db': Database)
    requires WellFormed(db)
  {
    if r.Written? then
      db[collectionName := CollectionOf(db, collectionName)[id := SetFields(Lookup(db, collectionName, id), r.doc)]]
    else db
  }

  /** On success the database holds exactly the returned document under its id, and nothing else changes. */
  lemma {:induction false} UpsertStoresReturnedDoc(db: Database, collectionName: string, doc: Doc, create: Option<bool>,
                                securityCheck: Option<map<string, Value>>, now: int, fault: Fault, other: string)
    requires WellFormed(db)
    requires "id" in doc && doc["id"].Str?
    requires UpsertOutcome(Lookup(db, collectionName, doc["id"].s), doc, create, securityCheck, now, fault).Written?
    ensures var id := doc["id"].s;
      var r := UpsertOutcome(Lookup(db, collectionName, id), doc, create, securityCheck, now, fault);
      var db' := AfterUpsert(db, collectionName, id, r);
      && WellFormed(db')
      && Lookup(db', collectionName, id) == Some(r.doc)
      && (other != id ==> Lookup(db', collectionName, other) == Lookup(db, collectionName, other))
  {
    var id := doc["id"].s;
    var existing := Lookup(db, collectionName, id);
    var r := UpsertOutcome(existing, doc, create, securityCheck, now, fault);
    var stored := SetFields(existing, r.doc);
    assert stored == r.doc by {
      if existing.Some? {
        assert existing.value.Keys <= r.doc.Keys;
      }
    }
    assert HasId(r.doc, id);
  }

  /** Storing a document under its own id keeps the database keyed by id. */
  lemma StoreKeepsWellFormed(db: Database, collectionName: string, id: string, d: Doc)
    requires WellFormed(db) && HasId(d, id)
    ensures WellFormed(db[collectionName := CollectionOf(db, collectionName)[id := d]])
  {
  }

  /** Nothing is written unless the outcome is a written document. */
  lemma NoWriteUnlessWritten(db: Database, collectionName: string, id: string, r: UpsertResult)
    requires WellFormed(db)
    requires !r.Written?
    ensures AfterUpsert(db, collectionName, id, r) == db
  {
  }

  /** With `create === false` (as `updateDoc` calls it) the security check never fails, whatever it asks. */
  lemma UpdateIgnoresSecurityCheck(existing: Option<Doc>, doc: Doc, securityCheck: Option<map<string, Value>>, now: int, fault: Fault)
    ensures UpsertOutcome(existing, doc, Some(false), securityCheck, now, fault) != Failed(SecurityCheckFailed)
  {
  }

  /** A stored `MongoDocument` merged with a well-typed input, or a new one stamped from it, is a `MongoDocument`. */
  lemma StampedIsMongoDocument(existing: Option<Doc>, doc: Doc, now: int)
    requires existing.Some? ==> IsMongoDocument(existing.value)
    requires IsMongoDocument(doc)
    ensures IsMongoDocument(Stamped(existing, doc, now))
    ensures IdOf(Stamped(existing, doc, now)) == IdOf(doc)
  {
  }

  /**
    The `for ... in securityCheck` loop: any key whose stored value is not
    strictly equal to the expected one marks the check as failed.
  */
  method CheckSecurity(existingDoc: Doc, securityCheck: map<string, Value>) returns (failed: bool)
    ensures failed <==> !SecurityCheckPasses(existingDoc, securityCheck)
  {
    failed := false;
    var keys := securityCheck.Keys;
    while keys != {}
      invariant keys <= securityCheck.Keys
      invariant failed <==> exists k :: k in securityCheck.Keys - keys && !StrictEq(Field(existingDoc, k), Some(securityCheck[k]))
      decreases keys
    {
      var key :| key in keys;
      if !StrictEq(Field(existingDoc, key), Some(securityCheck[key])) {
        failed := true;
      }
      keys := keys - {key};
    }
  }

  // ---------------------------------------------------------------------------
  // Delete

  /** The documents a `deleteMany(filter)` leaves. */
  function Remaining(coll: Collection, filter: Selector): (rest: Collection)
    ensures rest.Keys <= coll.Keys
    ensures forall k :: k in rest ==> rest[k] == coll[k] && !QueryMatches(coll[k], filter)
    ensures forall k :: k in coll && !QueryMatches(coll[k], filter) ==> k in rest
  {
    map k | k in coll && !QueryMatches(coll[k], filter) :: coll[k]
  }

  /** `deletedCount`: how many documents `deleteMany(filter)` removes. */
  function DeletedCount(coll: Collection, filter: Selector): nat {
    |coll.Keys - Remaining(coll, filter).Keys|
  }

  /** `deletedCount > 0` exactly when some document matched the filter. */
  lemma DeletedIffAnyMatch(coll: Collection, filter: Selector)
    ensures DeletedCount(coll, filter) > 0 <==> AnyMatch(coll, filter)
  {
    var rest := Remaining(coll, filter);
    if AnyMatch(coll, filter) {
      var k :| k in coll && QueryMatches(coll[k], filter);
      assert k in coll.Keys - rest.Keys;
    } else {
      assert coll.Keys - rest.Keys == {};
    }
  }

  function AfterDelete(db: Database, collectionName: string, filter: Selector): (db': Database)
    requires WellFormed(db)
    ensures WellFormed(db')
  {
    db[collectionName := Remaining(CollectionOf(db, collectionName), filter)]
  }

  /** The database. */
  class DocumentStore {
    var db: Database

    ghost predicate Valid()
      reads this
    {
      WellFormed(db)
    }

    constructor()
      ensures Valid() && db == map[]
    {
      db := map[];
    }

    /**
      `getDocumentsForCollection`: the matching documents of the collection in
      the order the database hands them out, or a thrown transport error.
    */
    method GetDocumentsForCollection(collectionName: string, filter: Selector, up: bool) returns (r: Reply<seq<Doc>>)
      requires Valid()
      ensures r.Done? <==> up
      ensures r.Done? ==> IsListing(r.value, CollectionOf(db, collectionName), filter)
    {
      if !up {
        return Thrown;
      }
      var coll := CollectionOf(db, collectionName);
      var keys := coll.Keys;
      var result := [];
      while keys != {}
        invariant keys <= coll.Keys
        invariant forall i :: 0 <= i < |result| ==>
          IdOf(result[i]).Some? && IdOf(result[i]).value.Str? && IdOf(result[i]).value.s in coll.Keys - keys
          && coll[IdOf(result[i]).value.s] == result[i] && QueryMatches(result[i], filter)
        invariant Distinct(result)
        invariant forall k :: k in coll.Keys - keys && QueryMatches(coll[k], filter) ==> coll[k] in result
        decreases keys
      {
        var k :| k in keys;
        if QueryMatches(coll[k], filter) {
          assert HasId(coll[k], k);
          result := result + [coll[k]];
        }
        keys := keys - {k};
      }
      r := Done(result);
    }

    /** `upsertDocument` for a document carrying a string `id`. */
    method UpsertDocument(collectionName: string, doc: Doc, create: Option<bool>, securityCheck: Option<map<string, Value>>,
                          now: int, fault: Fault) returns (result: UpsertResult)
      requires Valid()
      requires "id" in doc && doc["id"].Str?
      modifies this
      ensures Valid()
      ensures result == UpsertOutcome(old(Lookup(db, collectionName, doc["id"].s)), doc, create, securityCheck, now, fault)
      ensures db == AfterUpsert(old(db), collectionName, doc["id"].s, result)
    {
      var id := doc["id"].s;
      if fault == ConnectFails {
        return Failed(ErrorOnThrow(create));
      }
      var existing := Lookup(db, collectionName, id);
      var verdict: Option<DbError> := None;
      if create.Some? {
        if existing.Some? && create.value {
          verdict := Some(DocAlreadyExists);
        } else if existing.None? && !create.value {
          verdict := Some(DocDoesNotExist);
        }
      } else if existing.Some? && securityCheck.Some? {
        var failed := CheckSecurity(existing.value, securityCheck.value);
        if failed {
          verdict := Some(SecurityCheckFailed);
        }
      }
      assert verdict == Verdict(existing, create, securityCheck);
      if verdict.Some? {
        return Failed(verdict.value);
      }
      var newDoc := Stamped(existing, doc, now);
      if fault == WriteThrows {
        return Failed(ErrorOnThrow(create));
      } else if fault == WriteUnacknowledged {
        return Unacknowledged;
      }
      var stored := SetFields(existing, newDoc);
      assert HasId(stored, id);
      Store(collectionName, id, stored);
      result := Written(newDoc);
    }

    /** `updateOne({ id }, { $set }, { upsert: true })`: the document stored under its own id. */
    method Store(collectionName: string, id: string, stored: Doc)
      requires Valid() && HasId(stored, id)
      modifies this
      ensures Valid()
      ensures db == old(db)[collectionName := CollectionOf(old(db), collectionName)[id := stored]]
    {
      StoreKeepsWellFormed(db, collectionName, id, stored);
      db := db[collectionName := CollectionOf(db, collectionName)[id := stored]];
    }

    /** `deleteDocumentsForCollection`: true iff something was deleted; a transport error is thrown. */
    method DeleteDocumentsForCollection(collectionName: string, filter: Selector, up: bool) returns (r: Reply<bool>)
      requires Valid()
      modifies this
      ensures Valid()
      ensures !up ==> r == Thrown && db == old(db)
      ensures up ==> r == Done(AnyMatch(old(CollectionOf(db, collectionName)), filter))
      ensures up ==> db == AfterDelete(old(db), collectionName, filter)
    {
      if !up {
        return Thrown;
      }
      var coll := CollectionOf(db, collectionName);
      var deletedCount := DeletedCount(coll, filter);
      DeletedIffAnyMatch(coll, filter);
      db := AfterDelete(db, collectionName, filter);
      if deletedCount > 0 {
        return Done(true);
      }
      return Done(false);
    }
  }
}
