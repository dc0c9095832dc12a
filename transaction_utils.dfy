/** Transaction helpers (transactions/transaction_utils.py). `generate_tx_id`
    is the shared content hash `DataUtils.HashTransaction`. */
module TransactionUtils {
  import opened Base
  import opened Assoc
  import opened Text
  import opened Json
  import opened Crypto
  import opened FormatUtils

  /** The fields every transaction must carry. */
  const RequiredFields: set<string> := {"sender", "recipient", "timestamp", "amount", "signature"}

  /** `validate_tx_structure(tx)`: a dict holding every required field; extra
      fields are allowed and no value is inspected. */
  function ValidateTxStructure(tx: Json): (r: bool)
    ensures !tx.JObj? ==> !r
    ensures tx.JObj? ==> (r <==> RequiredFields <= ToMap(tx.entries).Keys)
  {
    tx.JObj? && RequiredFields <= ToMap(tx.entries).Keys
  }

  /** Adding or overwriting a field keeps a valid transaction valid. */
  lemma ValidateTxStructureMonotone(tx: seq<(string, Json)>, k: string, v: Json)
    requires ValidateTxStructure(JObj(tx))
    ensures ValidateTxStructure(JObj(Assign(tx, k, v)))
  {
  }

  /** The fields' values play no part: replacing one keeps the verdict. */
  lemma ValidateTxStructureIgnoresValues(tx: seq<(string, Json)>, k: string, v: Json)
    requires k in ToMap(tx)
    ensures ValidateTxStructure(JObj(Assign(tx, k, v))) == ValidateTxStructure(JObj(tx))
  {
    assert ToMap(Assign(tx, k, v)).Keys == ToMap(tx).Keys;
  }

  /** `hash_data(data, algorithm)`: the hex SHA-256 of the UTF-8 text;
      ValueError for any other algorithm name. */
  function HashData(p: Primitives, data: string, algorithm: string): (r: Result<string>)
    ensures r.Err? <==> algorithm != "sha256"
    ensures r.Ok? ==> r.value == ToHex(p.sha256(Utf8(data))) && |r.value| == 64
  {
    if algorithm == "sha256" then Ok(ToHex(p.sha256(Utf8(data))))
    else Err(ValueError("Unsupported hash algorithm: " + algorithm))
  }
}
