/** The second compliance variant (transactions/transaction_anchor.py): the
    same structure and amount checks as the verification module, but at the
    advanced level only the blacklist is consulted. */
module TransactionAnchor {
  import opened Base
  import opened Assoc
  import opened Json
  import opened Crypto
  import opened TransactionUtils
  import TransactionVerification
  import BulletproofsCore

  /** `COMPLIANCE_LEVEL_BASIC`, `COMPLIANCE_LEVEL_ADVANCED` and
      `MAX_TRANSACTION_AMOUNT` from transactions/transaction_constants.py. */
  const LevelBasic: int := 1
  const LevelAdvanced: int := 2
  const MaxTransactionAmount: int := 1_000_000

  /** `get_blacklist_addresses()`: the fixed two-address list. */
  function GetBlacklistAddresses(): (r: seq<Json>)
    ensures |r| == 2
    ensures r[0] == JStr("0xBlacklistedAddress1") && r[1] == JStr("0xBlacklistedAddress2")
  {
    [JStr("0xBlacklistedAddress1"), JStr("0xBlacklistedAddress2")]
  }

  /** `amount <= 0 or amount > MAX_TRANSACTION_AMOUNT`: a bool compares as 0
      or 1, any other non-integer raises TypeError. */
  function AmountRejected(amount: Json): (r: Result<bool>)
    ensures r.Err? <==> !amount.JInt? && !amount.JBool?
    ensures amount.JInt? ==> r == Ok(amount.i <= 0 || amount.i > MaxTransactionAmount)
    ensures amount.JBool? ==> r == Ok(!amount.b)
  {
    match amount
    case JInt(i) => Ok(i <= 0 || i > MaxTransactionAmount)
    case JBool(b) => Ok(!b)
    case _ => Err(TypeError("'<=' not supported between instances"))
  }

  /** The rejection test here is the negation of the verification module's
      bound, and both raise for the same amounts. */
  lemma AmountTestsAgree(amount: Json)
    ensures AmountRejected(amount).Err? <==> TransactionVerification.AmountWithin(amount).Err?
    ensures AmountRejected(amount).Ok? ==>
      AmountRejected(amount).value == !TransactionVerification.AmountWithin(amount).value
  {
  }

  /** `compliance_check(tx, level)`. */
  function ComplianceCheck(tx: Json, level: int): (r: Result<bool>)
    ensures !ValidateTxStructure(tx) ==> r == Ok(false)
    ensures ValidateTxStructure(tx) && level < LevelBasic ==> r == Ok(true)
    ensures ValidateTxStructure(tx) && level >= LevelBasic ==>
      (r.Err? <==> AmountRejected(ToMap(tx.entries)["amount"]).Err?)
    ensures r == Ok(true) && level >= LevelBasic ==> AmountRejected(ToMap(tx.entries)["amount"]) == Ok(false)
    ensures r == Ok(true) && level >= LevelAdvanced ==> ToMap(tx.entries)["recipient"] !in GetBlacklistAddresses()
    ensures ValidateTxStructure(tx) && level >= LevelBasic && AmountRejected(ToMap(tx.entries)["amount"]) == Ok(false)
         && (level < LevelAdvanced || ToMap(tx.entries)["recipient"] !in GetBlacklistAddresses())
         ==> r == Ok(true)
  {
    if !ValidateTxStructure(tx) then Ok(false)
    else
      var rejected :- if level >= LevelBasic then AmountRejected(ToMap(tx.entries)["amount"]) else Ok(false);
      if rejected then Ok(false)
      else if level >= LevelAdvanced && Get(tx.entries, "recipient").value in GetBlacklistAddresses() then Ok(false)
      else Ok(true)
  }

  /** The same boundaries as the verification module: zero and MAX + 1 are
      rejected, MAX itself accepted. */
  lemma AmountBounds(tx: seq<(string, Json)>, level: int)
    requires ValidateTxStructure(JObj(tx)) && LevelBasic <= level
    requires ToMap(tx)["recipient"] !in GetBlacklistAddresses()
    ensures ToMap(tx)["amount"] == JInt(0) ==> ComplianceCheck(JObj(tx), level) == Ok(false)
    ensures ToMap(tx)["amount"] == JInt(MaxTransactionAmount) ==> ComplianceCheck(JObj(tx), level) == Ok(true)
    ensures ToMap(tx)["amount"] == JInt(MaxTransactionAmount + 1) ==> ComplianceCheck(JObj(tx), level) == Ok(false)
  {
  }

  /** Unlike the verification module's check, this one needs no whitelist:
      at the advanced level a recipient outside both lists with an amount in
      bounds passes here and fails there. */
  lemma NoWhitelistRequirement(tx: seq<(string, Json)>, psiCheck: Json -> bool)
    requires ValidateTxStructure(JObj(tx))
    requires TransactionVerification.AmountWithin(ToMap(tx)["amount"]) == Ok(true)
    requires ToMap(tx)["recipient"] == JStr("0xSomeoneElse")
    ensures ComplianceCheck(JObj(tx), LevelAdvanced) == Ok(true)
    ensures TransactionVerification.ComplianceCheck(JObj(tx), TransactionVerification.LevelAdvanced, psiCheck) == Ok(false)
  {
    AmountTestsAgree(ToMap(tx)["amount"]);
  }

  /** Whenever the verification module's check passes at some level, so does
      this one: it is the weaker of the two variants. */
  lemma WeakerThanVerification(tx: Json, level: int, psiCheck: Json -> bool)
    requires TransactionVerification.ComplianceCheck(tx, level, psiCheck) == Ok(true)
    ensures ComplianceCheck(tx, level) == Ok(true)
  {
    if ValidateTxStructure(tx) && level >= LevelBasic {
      AmountTestsAgree(ToMap(tx.entries)["amount"]);
    }
  }

  /** `verify_amount_range(tx)`: the same range-proof round trip as the
      verification module's, skipped when validation is disabled. */
  function VerifyAmountRange(p: Primitives, cfg: BulletproofsCore.Config, enabled: bool, tx: Json, draw: Point): (r: Result<bool>)
    ensures !enabled ==> r == Ok(true)
    ensures enabled && !HasKey(tx, "amount") ==> r.Err?
    ensures r == TransactionVerification.VerifyAmountRange(p, cfg, enabled, tx, draw)
  {
    TransactionVerification.VerifyAmountRange(p, cfg, enabled, tx, draw)
  }
}
