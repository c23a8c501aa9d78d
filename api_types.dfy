/**
  Documents and values as the data-access layer sees them (`MongoDocument`),
  selectors, and the two small helpers of the API types: `stripExtraFields`
  and `isStringEmpty`.
*/
module ApiTypes {

  /** `undefined` (None) or a value. */
  datatype Option<+T> = None | Some(value: T)

  /** A JSON value held in a document field. Numbers are integers in this model. */
  datatype Value =
    | Null
    | Bool(b: bool)
    | Num(n: int)
    | Str(s: string)
    | Arr(items: seq<Value>)
    | Obj(fields: map<string, Value>)

  /** A document: field name to value; a field that is not in the map reads as `undefined`. */
  type Doc = map<string, Value>

  /** Values that JavaScript compares by value; arrays and objects are compared by reference. */
  predicate IsScalar(v: Value) {
    !v.Arr? && !v.Obj?
  }

  /** `d[key]`, with None for `undefined`. */
  function Field(d: Doc, key: string): (r: Option<Value>)
    ensures r.Some? <==> key in d
    ensures r.Some? ==> r.value == d[key]
  {
    if key in d then Some(d[key]) else None
  }

  /**
    JavaScript `===` on two possibly-undefined values. Arrays and objects are
    compared by reference; two of them are never taken to be the same object,
    so they are never strictly equal here.
  */
  predicate StrictEq(a: Option<Value>, b: Option<Value>) {
    match (a, b)
    case (None, None) => true
    case (Some(x), Some(y)) => x == y && IsScalar(x)
    case _ => false
  }

  /** No document appears twice. */
  predicate Distinct(s: seq<Doc>) {
    forall i, j :: 0 <= i < j < |s| ==> s[i] != s[j]
  }

  /** `d.id` */
  function IdOf(d: Doc): Option<Value> {
    Field(d, "id")
  }

  /** `d.id === id` for a string `id`. */
  predicate HasId(d: Doc, id: string) {
    StrictEq(IdOf(d), Some(Str(id)))
  }

  /** `a.id === b.id` (true when both are `undefined`). */
  predicate SameId(a: Doc, b: Doc) {
    StrictEq(IdOf(a), IdOf(b))
  }

  /** A selector (`Record<string, unknown>`) restricted to scalar values. */
  type Selector = m: map<string, Value> | forall k :: k in m ==> IsScalar(m[k]) witness map[]

  /** The selector `{ id }`. */
  function IdSelector(id: string): (s: Selector)
    ensures s.Keys == {"id"} && s["id"] == Str(id)
  {
    map["id" := Str(id)]
  }

  /** The `MongoDocument` shape: a string `id` and optional, typed lifecycle fields. */
  predicate IsMongoDocument(d: Doc) {
    && "id" in d && d["id"].Str?
    && ("active" in d ==> d["active"].Bool?)
    && ("creationDate" in d ==> d["creationDate"].Num?)
    && ("latestUpdate" in d ==> d["latestUpdate"].Num?)
  }

  /** The fields `stripExtraFields` drops for a choice of flags. */
  function DroppedFields(keepOnlyLatestUpdate: bool, keepOnlyCreationDate: bool): set<string> {
    if keepOnlyCreationDate then {"_id", "latestUpdate"}
    else if keepOnlyLatestUpdate then {"_id", "creationDate"}
    else {"_id", "creationDate", "latestUpdate"}
  }

  /**
    Removes the database bookkeeping fields from a document before it is
    handed to a client; `undefined` stays `undefined`.
  */
  function StripExtraFields(doc: Option<Doc>, keepOnlyLatestUpdate: bool, keepOnlyCreationDate: bool): (r: Option<Doc>)
    ensures r.Some? <==> doc.Some?
    ensures r.Some? ==> "_id" !in r.value
    ensures r.Some? ==> forall k :: k in r.value <==> k in doc.value && k !in DroppedFields(keepOnlyLatestUpdate, keepOnlyCreationDate)
    ensures r.Some? ==> forall k :: k in r.value ==> r.value[k] == doc.value[k]
  {
    match doc
    case None => None
    case Some(d) =>
      if keepOnlyCreationDate then Some(d - {"_id", "latestUpdate"})
      else if keepOnlyLatestUpdate then Some(d - {"_id", "creationDate"})
      else Some(d - {"_id", "creationDate", "latestUpdate"})
  }

  /** With the default flags exactly `_id`, `creationDate` and `latestUpdate` go; `id` and `active` stay. */
  lemma StripDefaultKeepsIdAndActive(d: Doc)
    ensures var r := StripExtraFields(Some(d), false, false).value;
      && r.Keys == d.Keys - {"_id", "creationDate", "latestUpdate"}
      && ("id" in d ==> "id" in r && r["id"] == d["id"])
      && ("active" in d ==> "active" in r && r["active"] == d["active"])
  {
  }

  /** `keepOnlyCreationDate` wins over `keepOnlyLatestUpdate`: `creationDate` is kept, `latestUpdate` dropped. */
  lemma StripCreationDateTakesPrecedence(d: Doc, keepOnlyLatestUpdate: bool)
    ensures var r := StripExtraFields(Some(d), keepOnlyLatestUpdate, true).value;
      && "latestUpdate" !in r && "_id" !in r
      && ("creationDate" in d ==> "creationDate" in r && r["creationDate"] == d["creationDate"])
  {
  }

  /** `keepOnlyLatestUpdate` alone keeps `latestUpdate` and drops `creationDate`. */
  lemma StripLatestUpdateOnly(d: Doc)
    ensures var r := StripExtraFields(Some(d), true, false).value;
      && "creationDate" !in r && "_id" !in r
      && ("latestUpdate" in d ==> "latestUpdate" in r && r["latestUpdate"] == d["latestUpdate"])
  {
  }

  /** Whatever the flags, a `MongoDocument` stays one after stripping, with the same `id`. */
  lemma StripKeepsMongoDocument(d: Doc, keepOnlyLatestUpdate: bool, keepOnlyCreationDate: bool)
    requires IsMongoDocument(d)
    ensures var r := StripExtraFields(Some(d), keepOnlyLatestUpdate, keepOnlyCreationDate).value;
      IsMongoDocument(r) && IdOf(r) == IdOf(d)
  {
  }

  /** `s?.length || 0`: the length, or 0 for `undefined`. */
  function LengthOrZero(s: Option<string>): nat {
    match s
    case None => 0
    case Some(t) => if |t| != 0 then |t| else 0
  }

  /** `isStringEmpty`: `undefined` and the empty string are empty. */
  function IsStringEmpty(s: Option<string>): (r: bool)
    ensures r <==> s.None? || s.value == ""
  {
    LengthOrZero(s) == 0
  }
}
