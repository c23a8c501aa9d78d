/**
  The process-wide snapshot cache: a key-value store that maps a collection
  name to a snapshot (a sequence of documents) or holds an arbitrary value in
  a generic slot, together with the selector filter used on snapshots.

  The read-only lookups are functions of the store's contents (`CacheState`);
  the operations that change the store are methods of `MemCache`.
*/
module DataCache {
  import opened ApiTypes

  /** What the store holds under one key. */
  datatype Entry =
    | Snapshot(docs: seq<Doc>)   // a collection snapshot written by setCache / updateCache / removeFromCache
    | Slot(value: Value)         // a value written by saveInCacheByKey

  type CacheState = map<string, Entry>

  // ---------------------------------------------------------------------------
  // Selector filter

  /**
    One selector field: the document's field is strictly equal to the
    expected value, or is an array holding it (`indexOf` compares with `===`).
    A missing field matches nothing.
  */
  predicate FieldMatches(o: Doc, k: string, v: Value) {
    StrictEq(Field(o, k), Some(v))
    || (k in o && o[k].Arr? && IsScalar(v) && v in o[k].items)
  }

  /** Every selector field matches; the empty selector matches every document. */
  predicate Matches(o: Doc, selector: Selector) {
    forall k :: k in selector ==> FieldMatches(o, k, selector[k])
  }

  /** The documents of `c` that match, in their original order. */
  function Filter(c: seq<Doc>, selector: Selector): seq<Doc> {
    if c == [] then []
    else (if Matches(c[0], selector) then [c[0]] else []) + Filter(c[1..], selector)
  }

  /** `sub` is `s` with some elements left out, the rest in order. */
  predicate IsSubsequence<T(==)>(sub: seq<T>, s: seq<T>)
    decreases |s|
  {
    sub == [] ||
    (s != [] && ((sub[0] == s[0] && IsSubsequence(sub[1..], s[1..])) || IsSubsequence(sub, s[1..])))
  }

  lemma {:induction false} FilterAppend(a: seq<Doc>, b: seq<Doc>, selector: Selector)
    ensures Filter(a + b, selector) == Filter(a, selector) + Filter(b, selector)
  {
    if a == [] {
      assert a + b == b;
    } else {
      assert (a + b)[1..] == a[1..] + b;
      FilterAppend(a[1..], b, selector);
    }
  }

  /** A document is kept iff it is in the input and matches the selector. */
  lemma {:induction false} FilterMembership(c: seq<Doc>, selector: Selector, x: Doc)
    ensures x in Filter(c, selector) <==> x in c && Matches(x, selector)
  {
    if c != [] {
      FilterMembership(c[1..], selector, x);
      assert x in c <==> x == c[0] || x in c[1..];
    }
  }

  /** Filtering a list with no repeats gives a list with no repeats. */
  lemma {:induction false} FilterKeepsDistinct(c: seq<Doc>, selector: Selector)
    requires Distinct(c)
    ensures Distinct(Filter(c, selector))
  {
    if c != [] {
      var rest := Filter(c[1..], selector);
      assert Distinct(c[1..]);
      FilterKeepsDistinct(c[1..], selector);
      if Matches(c[0], selector) {
        FilterMembership(c[1..], selector, c[0]);
        assert c[0] !in c[1..];
        assert Filter(c, selector) == [c[0]] + rest;
      } else {
        assert Filter(c, selector) == rest;
      }
    }
  }

  /** The filter keeps the input's order: its result is a subsequence of the input. */
  lemma {:induction false} FilterIsSubsequence(c: seq<Doc>, selector: Selector)
    ensures IsSubsequence(Filter(c, selector), c)
  {
    if c != [] {
      FilterIsSubsequence(c[1..], selector);
      if Matches(c[0], selector) {
        assert Filter(c, selector)[0] == c[0];
        assert Filter(c, selector)[1..] == Filter(c[1..], selector);
      } else {
        assert Filter(c, selector) == Filter(c[1..], selector);
      }
    }
  }

  /** The head of a non-empty filter result is the first matching element of the input. */
  lemma {:induction false} FilterHeadIsFirstMatch(c: seq<Doc>, selector: Selector)
    requires Filter(c, selector) != []
    ensures exists i :: (0 <= i < |c| && c[i] == Filter(c, selector)[0] && Matches(c[i], selector)
      && forall j :: 0 <= j < i ==> !Matches(c[j], selector))
  {
    if Matches(c[0], selector) {
      assert c[0] == Filter(c, selector)[0];
    } else {
      assert Filter(c, selector) == Filter(c[1..], selector);
      FilterHeadIsFirstMatch(c[1..], selector);
      var i :| (0 <= i < |c[1..]| && c[1..][i] == Filter(c[1..], selector)[0] && Matches(c[1..][i], selector)
        && forall j :: 0 <= j < i ==> !Matches(c[1..][j], selector));
      assert forall j :: 1 <= j < i + 1 ==> c[j] == c[1..][j - 1];
      assert c[i + 1] == Filter(c, selector)[0];
    }
  }

  /** The empty selector returns the collection unchanged. */
  lemma {:induction false} FilterEmptySelector(c: seq<Doc>)
    ensures Filter(c, map[]) == c
  {
    if c != [] {
      FilterEmptySelector(c[1..]);
      assert [c[0]] + c[1..] == c;
    }
  }

  /** Filtering a filtered collection again with the same selector changes nothing. */
  lemma {:induction false} FilterIdempotent(c: seq<Doc>, selector: Selector)
    ensures Filter(Filter(c, selector), selector) == Filter(c, selector)
  {
    if c != [] {
      FilterIdempotent(c[1..], selector);
      var head := if Matches(c[0], selector) then [c[0]] else [];
      FilterAppend(head, Filter(c[1..], selector), selector);
      if Matches(c[0], selector) {
        assert Filter(head, selector) == head by {
          assert head[1..] == [];
        }
      }
    }
  }

  /**
    `filterBySelector`: walks the collection, and for each document clears a
    flag whenever a selector field does not match; the document is pushed
    when the flag survives.
  */
  method FilterBySelector(collection: seq<Doc>, selector: Selector) returns (result: seq<Doc>)
    ensures result == Filter(collection, selector)
  {
    result := [];
    var i := 0;
    while i < |collection|
      invariant 0 <= i <= |collection|
      invariant result == Filter(collection[..i], selector)
    {
      var o := collection[i];
      var equals := true;
      var keys := selector.Keys;
      while keys != {}
        invariant keys <= selector.Keys
        invariant equals <==> forall k :: k in selector.Keys - keys ==> FieldMatches(o, k, selector[k])
        decreases keys
      {
        var k :| k in keys;
        if !FieldMatches(o, k, selector[k]) {
          equals := false;
        }
        keys := keys - {k};
      }
      if equals {
        result := result + [o];
      }
      assert collection[..i + 1] == collection[..i] + [o];
      FilterAppend(collection[..i], [o], selector);
      i := i + 1;
    }
    assert collection[..i] == collection;
  }

  // ---------------------------------------------------------------------------
  // Replacing and removing by id

  /** `collection.map(o => o.id === updated.id ? updated : o)` */
  function Replaced(c: seq<Doc>, updated: Doc): (r: seq<Doc>) {
    seq(|c|, i requires 0 <= i < |c| => if SameId(c[i], updated) then updated else c[i])
  }

  predicate ContainsId(c: seq<Doc>, updated: Doc) {
    exists i :: 0 <= i < |c| && SameId(c[i], updated)
  }

  /** The snapshot `updateCache` writes: replace every document with the same id, or append. */
  function Patched(c: seq<Doc>, updated: Doc): seq<Doc> {
    if ContainsId(c, updated) then Replaced(c, updated) else c + [updated]
  }

  /**
    The `map` pass of `updateCache`: builds the replaced collection and raises
    `found` when some document had the same id.
  */
  method ReplaceById(collection: seq<Doc>, updated: Doc) returns (newCollection: seq<Doc>, found: bool)
    ensures found <==> ContainsId(collection, updated)
    ensures |newCollection| == |collection|
    ensures forall i :: 0 <= i < |collection| ==>
      newCollection[i] == (if SameId(collection[i], updated) then updated else collection[i])
  {
    newCollection := [];
    found := false;
    var i := 0;
    while i < |collection|
      invariant 0 <= i <= |collection|
      invariant |newCollection| == i
      invariant forall j :: 0 <= j < i ==>
        newCollection[j] == (if SameId(collection[j], updated) then updated else collection[j])
      invariant found <==> exists j :: 0 <= j < i && SameId(collection[j], updated)
    {
      var o := collection[i];
      if SameId(o, updated) {
        found := true;
        newCollection := newCollection + [updated];
      } else {
        newCollection := newCollection + [o];
      }
      i := i + 1;
    }
  }

  /** When the id is present, every document with it is replaced; length and all others stay in place. */
  lemma PatchedReplaces(c: seq<Doc>, updated: Doc)
    requires ContainsId(c, updated)
    ensures |Patched(c, updated)| == |c|
    ensures forall i :: 0 <= i < |c| ==>
      Patched(c, updated)[i] == if SameId(c[i], updated) then updated else c[i]
  {
  }

  /** When the id is absent, the new document is appended after the unchanged collection. */
  lemma PatchedAppends(c: seq<Doc>, updated: Doc)
    requires !ContainsId(c, updated)
    ensures Patched(c, updated) == c + [updated]
    ensures Patched(c, updated)[|c|] == updated
  {
  }

  /** `collection.filter(e => e.id !== id)` */
  function Removed(c: seq<Doc>, id: string): seq<Doc> {
    if c == [] then []
    else (if HasId(c[0], id) then [] else [c[0]]) + Removed(c[1..], id)
  }

  /** After removal no document has the id, and every other document is still there. */
  lemma {:induction false} RemovedMembership(c: seq<Doc>, id: string, x: Doc)
    ensures x in Removed(c, id) <==> x in c && !HasId(x, id)
  {
    if c != [] {
      RemovedMembership(c[1..], id, x);
      assert x in c <==> x == c[0] || x in c[1..];
    }
  }

  /** Removal keeps the remaining documents in their order. */
  lemma {:induction false} RemovedIsSubsequence(c: seq<Doc>, id: string)
    ensures IsSubsequence(Removed(c, id), c)
  {
    if c != [] {
      RemovedIsSubsequence(c[1..], id);
      if !HasId(c[0], id) {
        assert Removed(c, id)[0] == c[0];
        assert Removed(c, id)[1..] == Removed(c[1..], id);
      } else {
        assert Removed(c, id) == Removed(c[1..], id);
      }
    }
  }

  /** `collection.find(o => o.id === id)`: the first document with the id. */
  function FindById(c: seq<Doc>, id: string): (r: Option<Doc>)
    ensures r.None? <==> forall i :: 0 <= i < |c| ==> !HasId(c[i], id)
    ensures r.Some? ==> exists i :: (0 <= i < |c| && c[i] == r.value && HasId(c[i], id)
      && forall j :: 0 <= j < i ==> !HasId(c[j], id))
  {
    if c == [] then None
    else if HasId(c[0], id) then Some(c[0])
    else
      var r := FindById(c[1..], id);
      assert forall i :: 1 <= i < |c| ==> c[i] == c[1..][i - 1];
      r
  }

  // ---------------------------------------------------------------------------
  // Read-only lookups on the store's contents

  /** `getFromCache`: the snapshot held for a collection, if any. */
  function GetFromCache(s: CacheState, collectionName: string): (r: Option<seq<Doc>>)
    ensures r.Some? <==> collectionName in s && s[collectionName].Snapshot?
    ensures r.Some? ==> s[collectionName] == Snapshot(r.value)
  {
    if collectionName in s && s[collectionName].Snapshot? then Some(s[collectionName].docs) else None
  }

  /** `getFromCacheById`: the first snapshot document with the id. */
  function GetFromCacheById(s: CacheState, collectionName: string, id: string): (r: Option<Doc>)
    ensures r.Some? ==> (GetFromCache(s, collectionName).Some?
      && var c := GetFromCache(s, collectionName).value;
         exists i :: (0 <= i < |c| && c[i] == r.value && HasId(c[i], id)
           && forall j :: 0 <= j < i ==> !HasId(c[j], id)))
    ensures r.None? <==> (GetFromCache(s, collectionName).None?
      || forall d :: d in GetFromCache(s, collectionName).value ==> !HasId(d, id))
  {
    match GetFromCache(s, collectionName)
    case None => None
    case Some(c) => FindById(c, id)
  }

  /** `getSeveralFromCacheBySelector`: the matching snapshot documents, in order. */
  function GetSeveralFromCacheBySelector(s: CacheState, collectionName: string, selector: Selector): (r: Option<seq<Doc>>)
    ensures r.Some? <==> GetFromCache(s, collectionName).Some?
    ensures r.Some? ==> forall d :: d in r.value <==> d in GetFromCache(s, collectionName).value && Matches(d, selector)
    ensures r.Some? ==> r.value == Filter(GetFromCache(s, collectionName).value, selector)
  {
    match GetFromCache(s, collectionName)
    case None => None
    case Some(c) =>
      forall d ensures d in Filter(c, selector) <==> d in c && Matches(d, selector) {
        FilterMembership(c, selector, d);
      }
      Some(Filter(c, selector))
  }

  /** `getFromCacheBySelector`: the first matching snapshot document. */
  function GetFromCacheBySelector(s: CacheState, collectionName: string, selector: Selector): (r: Option<Doc>)
    ensures r.Some? ==> (GetFromCache(s, collectionName).Some?
      && var c := GetFromCache(s, collectionName).value;
         exists i :: (0 <= i < |c| && c[i] == r.value && Matches(c[i], selector)
           && forall j :: 0 <= j < i ==> !Matches(c[j], selector)))
    ensures r.None? <==> (GetFromCache(s, collectionName).None?
      || forall d :: d in GetFromCache(s, collectionName).value ==> !Matches(d, selector))
  {
    match GetSeveralFromCacheBySelector(s, collectionName, selector)
    case None => None
    case Some(matching) =>
      if matching == [] then None
      else
        FilterHeadIsFirstMatch(GetFromCache(s, collectionName).value, selector);
        Some(matching[0])
  }

  /** `getFromCacheByKey`: whatever is held under the key. */
  function GetFromCacheByKey(s: CacheState, key: string): (r: Option<Entry>)
    ensures r.Some? <==> key in s
    ensures r.Some? ==> r.value == s[key]
  {
    if key in s then Some(s[key]) else None
  }

  // ---------------------------------------------------------------------------
  // Effects of the operations that write the store

  /** The store after `updateCache(collectionName, updated)`. */
  function AfterUpdateCache(s: CacheState, collectionName: string, updated: Doc): (r: CacheState)
    ensures r.Keys == s.Keys
    ensures forall k :: k in s && k != collectionName ==> r[k] == s[k]
    ensures GetFromCache(s, collectionName).None? ==> r == s
  {
    match GetFromCache(s, collectionName)
    case None => s
    case Some(c) => s[collectionName := Snapshot(Patched(c, updated))]
  }

  /** The store after `updateCache(collectionName, null)`: a non-empty snapshot makes `o.id === null.id` throw. */
  datatype NullPatch = NoSnapshot | NullAppended | ThrowsTypeError

  function UpdateCacheWithNull(s: CacheState, collectionName: string): (r: (NullPatch, CacheState))
    ensures r.0 == NoSnapshot <==> GetFromCache(s, collectionName).None?
    ensures r.0 == ThrowsTypeError <==> GetFromCache(s, collectionName).Some? && GetFromCache(s, collectionName).value != []
    ensures r.0 != NullAppended ==> r.1 == s
    ensures r.0 == NullAppended ==> r.1 == s[collectionName := Slot(Arr([Null]))]
  {
    match GetFromCache(s, collectionName)
    case None => (NoSnapshot, s)
    case Some(c) =>
      if c == [] then (NullAppended, s[collectionName := Slot(Arr([Null]))])
      else (ThrowsTypeError, s)
  }

  /** The store after `removeFromCache(collectionName, id)`. */
  function AfterRemoveFromCache(s: CacheState, collectionName: string, id: string): (r: CacheState)
    ensures r.Keys == s.Keys
    ensures forall k :: k in s && k != collectionName ==> r[k] == s[k]
    ensures GetFromCache(s, collectionName).None? ==> r == s
  {
    match GetFromCache(s, collectionName)
    case None => s
    case Some(c) => s[collectionName := Snapshot(Removed(c, id))]
  }

  /** After `setCache`, `getFromCache` returns exactly the stored values. */
  lemma SetThenGet(s: CacheState, collectionName: string, values: seq<Doc>, other: string)
    ensures GetFromCache(s[collectionName := Snapshot(values)], collectionName) == Some(values)
    ensures other != collectionName ==>
      GetFromCache(s[collectionName := Snapshot(values)], other) == GetFromCache(s, other)
  {
  }

  /** After `updateCache` on a present snapshot, `getFromCacheById` finds the new document. */
  lemma {:induction false} UpdateThenGetById(s: CacheState, collectionName: string, updated: Doc, id: string)
    requires GetFromCache(s, collectionName).Some?
    requires HasId(updated, id)
    ensures GetFromCacheById(AfterUpdateCache(s, collectionName, updated), collectionName, id) == Some(updated)
  {
    var c := GetFromCache(s, collectionName).value;
    var p := Patched(c, updated);
    assert GetFromCache(AfterUpdateCache(s, collectionName, updated), collectionName) == Some(p);
    if ContainsId(c, updated) {
      var k :| 0 <= k < |c| && SameId(c[k], updated);
      assert HasId(p[k], id);
      var found := FindById(p, id).value;
      var i :| 0 <= i < |p| && p[i] == found && HasId(p[i], id);
      // a kept document with the new document's id would have been replaced
      assert p == Replaced(c, updated);
    } else {
      forall i | 0 <= i < |c| ensures !HasId(p[i], id) {
        assert p[i] == c[i];
      }
      assert HasId(p[|c|], id);
    }
  }

  /** After `removeFromCache`, no snapshot document has the id. */
  lemma RemoveThenGetById(s: CacheState, collectionName: string, id: string)
    ensures GetFromCacheById(AfterRemoveFromCache(s, collectionName, id), collectionName, id) == None
  {
    match GetFromCache(s, collectionName)
    case None =>
    case Some(c) =>
      forall d | d in Removed(c, id) ensures !HasId(d, id) {
        RemovedMembership(c, id, d);
      }
  }

  // ---------------------------------------------------------------------------
  // The store itself

  /** The process-wide cache instance (`memCache`). */
  class MemCache {
    var entries: CacheState

    /** A fresh, empty store. */
    constructor()
      ensures entries == map[]
    {
      entries := map[];
    }

    /** `saveInCacheByKey`: always succeeds. */
    method SaveInCacheByKey(key: string, value: Value) returns (ok: bool)
      modifies this
      ensures ok
      ensures entries == old(entries)[key := Slot(value)]
      ensures GetFromCacheByKey(entries, key) == Some(Slot(value))
    {
      entries := entries[key := Slot(value)];
      ok := true;
    }

    /** `setCache`: stores the snapshot; always succeeds. */
    method SetCache(collectionName: string, values: seq<Doc>) returns (ok: bool)
      modifies this
      ensures ok
      ensures entries == old(entries)[collectionName := Snapshot(values)]
      ensures GetFromCache(entries, collectionName) == Some(values)
    {
      entries := entries[collectionName := Snapshot(values)];
      ok := true;
    }

    /** `updateCache`: patches the snapshot if there is one; false (and no change) otherwise. */
    method UpdateCache(collectionName: string, updatedValue: Doc) returns (ok: bool)
      modifies this
      ensures ok <==> GetFromCache(old(entries), collectionName).Some?
      ensures entries == AfterUpdateCache(old(entries), collectionName, updatedValue)
    {
      var collection := GetFromCache(entries, collectionName);
      if collection.Some? {
        var newCollection, found := ReplaceById(collection.value, updatedValue);
        assert newCollection == Replaced(collection.value, updatedValue);
        var patched := if found then newCollection else newCollection + [updatedValue];
        assert patched == Patched(collection.value, updatedValue);
        entries := entries[collectionName := Snapshot(patched)];
        ok := true;
      } else {
        ok := false;
      }
    }

    /** `updateCache(collectionName, null)`, as the repository calls it after an unacknowledged write. */
    method UpdateCacheNull(collectionName: string) returns (ok: bool, typeError: bool)
      modifies this
      ensures typeError <==> UpdateCacheWithNull(old(entries), collectionName).0 == ThrowsTypeError
      ensures ok <==> UpdateCacheWithNull(old(entries), collectionName).0 == NullAppended
      ensures entries == UpdateCacheWithNull(old(entries), collectionName).1
    {
      var collection := GetFromCache(entries, collectionName);
      ok, typeError := false, false;
      if collection.Some? {
        if collection.value == [] {
          entries := entries[collectionName := Slot(Arr([Null]))];
          ok := true;
        } else {
          typeError := true;
        }
      }
    }

    /** `removeFromCache`: prunes the snapshot if there is one; always reports success. */
    method RemoveFromCache(collectionName: string, id: string) returns (ok: bool)
      modifies this
      ensures ok
      ensures entries == AfterRemoveFromCache(old(entries), collectionName, id)
    {
      var collection := GetFromCache(entries, collectionName);
      if collection.Some? {
        entries := entries[collectionName := Snapshot(Removed(collection.value, id))];
      }
      ok := true;
    }

    /** `resetAllCache`: empties the store. */
    method ResetAllCache()
      modifies this
      ensures entries == map[]
    {
      entries := map[];
    }

    /** Expiry of one key when its idle window has elapsed; the clock that decides it is not modelled. */
    method Expire(key: string)
      modifies this
      ensures entries == old(entries) - {key}
      ensures GetFromCacheByKey(entries, key) == None
    {
      entries := entries - {key};
    }
  }
}
