/** Transaction compliance rules (verification/transaction_verification.py):
    structure, amount bounds, fixed black- and whitelists and a range proof
    of the amount. */
module TransactionVerification {
  import opened Base
  import opened Assoc
  import opened Json
  import opened Crypto
  import opened TransactionUtils
  import BulletproofsCore

  /** `COMPLIANCE_LEVEL_BASIC`, `COMPLIANCE_LEVEL_ADVANCED` and
      `MAX_TRANSACTION_AMOUNT` (10**6). */
  const LevelBasic: int := 1
  const LevelAdvanced: int := 2
  const MaxTransactionAmount: int := 1_000_000

  /** The value of a field the structure check guarantees. */
  function Field(tx: Json, k: string): Json
    requires HasKey(tx, k)
  {
    ToMap(tx.entries)[k]
  }

  /** `0 < amount <= MAX_TRANSACTION_AMOUNT` on a Python value: a bool
      compares as 0 or 1; any other non-integer raises TypeError. */
  function AmountWithin(amount: Json): (r: Result<bool>)
    ensures r.Err? <==> !amount.JInt? && !amount.JBool?
    ensures amount.JInt? ==> r == Ok(0 < amount.i <= MaxTransactionAmount)
    ensures amount.JBool? ==> r == Ok(amount.b)
  {
    match amount
    case JInt(i) => Ok(0 < i <= MaxTransactionAmount)
    case JBool(b) => Ok(b)
    case _ => Err(TypeError("'<' not supported between instances"))
  }

  /** `get_blacklist_addresses()` and `get_whitelist_addresses()`. */
  const Blacklist: seq<Json> := [JStr("0xBlacklistedAddress1"), JStr("0xBlacklistedAddress2")]
  const Whitelist: seq<Json> := [JStr("0xWhitelistedAddress1"), JStr("0xWhitelistedAddress2")]

  /** `is_blacklisted(address)`: membership in the fixed blacklist. */
  function IsBlacklisted(address: Json): (r: bool)
    ensures r <==> address == JStr("0xBlacklistedAddress1") || address == JStr("0xBlacklistedAddress2")
  {
    address in Blacklist
  }

  /** `is_whitelisted(address)`: membership in the fixed whitelist. */
  function IsWhitelisted(address: Json): (r: bool)
    ensures r <==> address == JStr("0xWhitelistedAddress1") || address == JStr("0xWhitelistedAddress2")
  {
    address in Whitelist
  }

  /** No address is on both lists. */
  lemma ListsDisjoint(address: Json)
    ensures !(IsBlacklisted(address) && IsWhitelisted(address))
  {
  }

  /** `compliance_check(tx, level)`. The PSI check it calls,
      `perform_psi_check`, is not defined in the repository; `psiCheck` is its
      verdict on the recipient. */
  function ComplianceCheck(tx: Json, level: int, psiCheck: Json -> bool): (r: Result<bool>)
    ensures !ValidateTxStructure(tx) ==> r == Ok(false)
    ensures ValidateTxStructure(tx) && level < LevelBasic ==> r == Ok(true)
    ensures ValidateTxStructure(tx) && level >= LevelBasic ==>
      (r.Err? <==> AmountWithin(Field(tx, "amount")).Err?)
    ensures r == Ok(true) && level >= LevelBasic ==> AmountWithin(Field(tx, "amount")) == Ok(true)
    ensures r == Ok(true) && level >= LevelAdvanced ==>
      IsWhitelisted(Field(tx, "recipient")) && !IsBlacklisted(Field(tx, "recipient")) && psiCheck(Field(tx, "recipient"))
    ensures ValidateTxStructure(tx) && level >= LevelBasic && AmountWithin(Field(tx, "amount")) == Ok(true)
         && (level < LevelAdvanced || (IsWhitelisted(Field(tx, "recipient")) && !IsBlacklisted(Field(tx, "recipient"))
                                       && psiCheck(Field(tx, "recipient"))))
         ==> r == Ok(true)
  {
    if !ValidateTxStructure(tx) then Ok(false)
    else
      var amountOk :- if level >= LevelBasic then AmountWithin(Field(tx, "amount")) else Ok(true);
      if !amountOk then Ok(false)
      else if level >= LevelAdvanced then
        var recipient := Field(tx, "recipient");
        if !(IsWhitelisted(recipient) && !IsBlacklisted(recipient)) then Ok(false)
        else Ok(psiCheck(recipient))
      else Ok(true)
  }

  /** The amount bounds: zero is rejected and the maximum accepted. */
  lemma AmountBounds(tx: seq<(string, Json)>, level: int, psiCheck: Json -> bool)
    requires ValidateTxStructure(JObj(tx)) && LevelBasic <= level < LevelAdvanced
    ensures Field(JObj(tx), "amount") == JInt(0) ==> ComplianceCheck(JObj(tx), level, psiCheck) == Ok(false)
    ensures Field(JObj(tx), "amount") == JInt(MaxTransactionAmount) ==> ComplianceCheck(JObj(tx), level, psiCheck) == Ok(true)
    ensures Field(JObj(tx), "amount") == JInt(MaxTransactionAmount + 1) ==> ComplianceCheck(JObj(tx), level, psiCheck) == Ok(false)
  {
  }

  /** At the advanced level a blacklisted recipient fails, and so does a
      recipient that is merely not whitelisted. */
  lemma AdvancedNeedsWhitelist(tx: seq<(string, Json)>, psiCheck: Json -> bool)
    requires ValidateTxStructure(JObj(tx))
    requires !IsWhitelisted(Field(JObj(tx), "recipient"))
    ensures ComplianceCheck(JObj(tx), LevelAdvanced, psiCheck).Ok? ==> ComplianceCheck(JObj(tx), LevelAdvanced, psiCheck) == Ok(false)
  {
  }

  /** `ENABLE_BULLETPROOF_VALIDATION`. */
  const EnableBulletproofValidation: bool := true

  /** `verify_amount_range(tx)`: True when validation is disabled;
      otherwise prove `0 <= amount <= MAX_TRANSACTION_AMOUNT` with the
      configured range-proof backend and verify the proof. The amount itself
      is the commitment, as the emulated backend takes it (the range-proof
      wrapper the module calls does not accept the arguments it is given).
      An amount that is not a number raises TypeError, as the emulated
      backend's range comparison does. `enabled` stands for the
      configuration flag. */
  function VerifyAmountRange(p: Primitives, cfg: BulletproofsCore.Config, enabled: bool, tx: Json, draw: Point): (r: Result<bool>)
    ensures !enabled ==> r == Ok(true)
    ensures enabled && !HasKey(tx, "amount") ==> r.Err?
    ensures enabled && tx.JObj? && !HasKey(tx, "amount") ==> r == Err(KeyError("amount"))
    ensures enabled && HasKey(tx, "amount") && AsInt(Field(tx, "amount")).None? ==> r.Err? && r.error.TypeError?
    ensures enabled && HasKey(tx, "amount") && AsInt(Field(tx, "amount")).Some? ==>
      var a := AsInt(Field(tx, "amount")).value;
      var proof := BulletproofsCore.GenerateBulletproof(p, cfg, a, 0, MaxTransactionAmount, draw);
      && (proof.Err? ==> r == Err(proof.error))
      && (proof.Ok? ==> r == BulletproofsCore.VerifyBulletproof(p, cfg, a, proof.value, 0, MaxTransactionAmount))
  {
    if !enabled then Ok(true)
    else
      var amount :- Index(tx, "amount");
      match AsInt(amount)
      case None => Err(TypeError("'<=' not supported between instances"))
      case Some(a) =>
        var proof :- BulletproofsCore.GenerateBulletproof(p, cfg, a, 0, MaxTransactionAmount, draw);
        BulletproofsCore.VerifyBulletproof(p, cfg, a, proof, 0, MaxTransactionAmount)
  }

  /** With the emulated backend an in-range amount passes and an
      out-of-range one raises ValueError rather than returning False. */
  lemma EmulatedAmountRange(p: Primitives, cfg: BulletproofsCore.Config, tx: Json, draw: Point)
    requires cfg.flag == BulletproofsCore.DefaultFlag
    requires HasKey(tx, "amount") && Field(tx, "amount").JInt?
    ensures 0 <= Field(tx, "amount").i <= MaxTransactionAmount ==> VerifyAmountRange(p, cfg, true, tx, draw) == Ok(true)
    ensures !(0 <= Field(tx, "amount").i <= MaxTransactionAmount) ==> VerifyAmountRange(p, cfg, true, tx, draw).Err?
  {
    var a := Field(tx, "amount").i;
    if 0 <= a <= MaxTransactionAmount {
      BulletproofsCore.EmulatedRoundTrip(p, cfg, a, 0, MaxTransactionAmount, draw);
    }
  }
}
