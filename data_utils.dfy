/** Key formatting, content hashing and JSON conversion (data/utils.py). */
module DataUtils {
  import opened Base
  import opened Assoc
  import opened Text
  import opened Json
  import opened Crypto
  import opened FormatUtils

  /** `format_key(tx_family, key)`: the family, an underscore, the key. */
  function FormatKey(family: string, key: string): (r: string)
    ensures |r| == |family| + 1 + |key|
    ensures StartsWith(r, family + "_")
    ensures r[|family| + 1..] == key
  {
    family + "_" + key
  }

  /** Within one family, distinct keys give distinct store keys. */
  lemma FormatKeyInjective(family: string, k1: string, k2: string)
    requires FormatKey(family, k1) == FormatKey(family, k2)
    ensures k1 == k2
  {
  }

  /** `sha256(json.dumps(tx, sort_keys=True).encode()).hexdigest()`: the
      content hash used as a transaction or record id; TypeError when the
      value cannot be serialised. */
  function HashTransaction(p: Primitives, tx: Json): (r: Result<string>)
    ensures r.Ok? <==> Serializable(tx)
    ensures r.Ok? ==> |r.value| == 64
    ensures r.Ok? ==> r.value == ToHex(p.sha256(Utf8(p.emit(Canonical(tx)))))
  {
    if Serializable(tx) then Ok(ToHex(p.sha256(Utf8(p.emit(Canonical(tx))))))
    else Err(TypeError("Object is not JSON serializable"))
  }

  /** The content hash does not depend on the order keys were inserted. */
  lemma HashIgnoresKeyOrder(p: Primitives, d1: seq<(string, Json)>, d2: seq<(string, Json)>)
    requires UniqueKeys(d1) && UniqueKeys(d2)
    requires ToMap(d1) == ToMap(d2)
    ensures HashTransaction(p, JObj(d1)) == HashTransaction(p, JObj(d2))
  {
    CanonicalIgnoresOrder(d1, d2);
    SerializableByMap(d1);
    SerializableByMap(d2);
  }

  /** `convert_to_json(data)`: the indented JSON text, or None where
      `json.dumps` raises. */
  function ConvertToJson(p: Primitives, data: Json): (r: Option<string>)
    ensures r.None? <==> !Serializable(data)
    ensures r.Some? ==> r.value == p.emitIndented(data)
  {
    if Serializable(data) then Some(p.emitIndented(data)) else None
  }
}
