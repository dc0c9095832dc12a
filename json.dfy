/** The Python values the core stores, hashes and compares: JSON-shaped data,
    plus values `json.dumps` refuses (an elliptic-curve point, a Paillier
    ciphertext, raw bytes), which are kept opaque. A dict is an association
    list in insertion order. */
module Json {
  import opened Base
  import opened Assoc

  datatype Json =
    | JNull
    | JBool(b: bool)
    | JInt(i: int)
    | JStr(s: string)
    | JArr(items: seq<Json>)
    | JObj(entries: seq<(string, Json)>)
    | JOpaque(tag: string)

  /** `json.dumps` accepts the value: nothing opaque anywhere inside. */
  predicate Serializable(j: Json)
  {
    match j
    case JOpaque(_) => false
    case JArr(items) => forall i | 0 <= i < |items| :: Serializable(items[i])
    case JObj(entries) => forall i | 0 <= i < |entries| :: Serializable(entries[i].1)
    case _ => true
  }

  /** `key in d`; false for a value that is not a dict. */
  predicate HasKey(j: Json, k: string)
  {
    j.JObj? && k in ToMap(j.entries)
  }

  /** `d[k]` on a Python value: KeyError for a missing key, TypeError when the
      value is not a dict. */
  function Index(j: Json, k: string): (r: Result<Json>)
    ensures r.Ok? <==> HasKey(j, k)
    ensures r.Ok? ==> r.value == ToMap(j.entries)[k]
    ensures j.JObj? && r.Err? ==> r.error == KeyError(k)
  {
    if !j.JObj? then Err(TypeError("object is not subscriptable"))
    else match Get(j.entries, k)
      case Some(v) => Ok(v)
      case None => Err(KeyError(k))
  }

  /** A Python value used as an integer: an int, or a bool as 0 or 1. */
  function AsInt(j: Json): (r: Option<int>)
    ensures r.Some? <==> j.JInt? || j.JBool?
    ensures j.JInt? ==> r == Some(j.i)
  {
    match j
    case JInt(i) => Some(i)
    case JBool(b) => Some(if b then 1 else 0)
    case _ => None
  }

  /** The value the sorted-keys serialisation writes: every dict, at every
      depth, with its entries in key order (`json.dumps(..., sort_keys=True)`). */
  function Canonical(j: Json): Json
    decreases j, 1
  {
    match j
    case JArr(items) => JArr(seq(|items|, i requires 0 <= i < |items| => Canonical(items[i])))
    case JObj(entries) => JObj(SortByKey(CanonicalEntries(entries)))
    case _ => j
  }

  /** The entries of a dict with their values made canonical, in place. */
  function CanonicalEntries(e: seq<(string, Json)>): (r: seq<(string, Json)>)
    ensures |r| == |e|
    decreases JObj(e), 0
  {
    seq(|e|, i requires 0 <= i < |e| => (e[i].0, Canonical(e[i].1)))
  }

  /** The canonical entries denote the original mapping with each value made
      canonical. */
  lemma {:induction false} CanonicalEntriesMap(e: seq<(string, Json)>)
    ensures ToMap(CanonicalEntries(e)) == map k | k in ToMap(e) :: Canonical(ToMap(e)[k])
  {
    if e != [] {
      assert CanonicalEntries(e) == [(e[0].0, Canonical(e[0].1))] + CanonicalEntries(e[1..]);
      CanonicalEntriesMap(e[1..]);
    }
  }

  /** Sorted-keys serialisation ignores insertion order: two dicts holding the
      same entries are written identically. */
  lemma CanonicalIgnoresOrder(d1: seq<(string, Json)>, d2: seq<(string, Json)>)
    requires ToMap(d1) == ToMap(d2)
    ensures Canonical(JObj(d1)) == Canonical(JObj(d2))
  {
    CanonicalEntriesMap(d1);
    CanonicalEntriesMap(d2);
    SortByKeyRespectsEquality(CanonicalEntries(d1), CanonicalEntries(d2));
  }

  /** A canonical dict has its keys in strictly increasing order. */
  lemma CanonicalSorted(d: seq<(string, Json)>)
    ensures Canonical(JObj(d)).JObj? && StrictlySorted(Canonical(JObj(d)).entries)
  {
    SortByKeySorted(CanonicalEntries(d));
  }

  /** For a dict with unique keys, serialisability depends only on the
      mapping. */
  lemma SerializableByMap(d: seq<(string, Json)>)
    requires UniqueKeys(d)
    ensures Serializable(JObj(d)) <==> forall k | k in ToMap(d) :: Serializable(ToMap(d)[k])
  {
    if Serializable(JObj(d)) {
      forall k | k in ToMap(d) ensures Serializable(ToMap(d)[k]) {
        var i := IndexOf(d, k);
        ToMapAt(d, i);
      }
    } else {
      var i :| 0 <= i < |d| && !Serializable(d[i].1);
      ToMapAt(d, i);
    }
  }
}
