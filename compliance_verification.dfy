/** Blacklist and whitelist screening by private set intersection
    (verification/compliance_verification.py). The lists `load_blacklist` and
    `load_whitelist` read from their LMDB databases are parameters. */
module ComplianceVerification {
  import opened Base
  import opened Assoc
  import opened Json
  import opened Crypto
  import opened PsiProtocol

  /** `COMPLIANCE_LEVEL_BASIC` and `COMPLIANCE_LEVEL_ADVANCED`. */
  const LevelBasic: int := 1
  const LevelAdvanced: int := 2

  const AdvancedDetails: string := "Advanced verification includes additional checks."

  /** The report `check_compliance` returns: a dict with these keys, and
      `details` only at the advanced level. */
  datatype Report = Report(
    blacklistMatches: seq<Json>,
    whitelistMatches: seq<Json>,
    status: string,
    details: Option<string>)

  /** A `ComplianceVerification` object: its level and its PSI scheme. */
  datatype Checker = Checker(schemeType: string, level: int, psi: Scheme)

  /** `ComplianceVerification(scheme_type, compliance_level)`: fails as the
      PSI scheme's constructor does. */
  function Init(schemeType: string, level: int, paillierKeys: (Json, Json), schnorrKeys: (Json, Json)): (r: Result<Checker>)
    ensures r.Ok? <==> PsiProtocol.Init(schemeType, paillierKeys, schnorrKeys).Ok?
    ensures r.Ok? ==> r.value.level == level && r.value.psi == PsiProtocol.Init(schemeType, paillierKeys, schnorrKeys).value
  {
    var psi :- PsiProtocol.Init(schemeType, paillierKeys, schnorrKeys);
    Ok(Checker(schemeType, level, psi))
  }

  /** `check_compliance(address_set)`: encrypt both lists, intersect the
      addresses with each, and report. The status is decided by the
      blacklist matches alone. `blNonces`/`wlNonces` are the encryption
      randomness for the two lists. An encryption error of the blacklist,
      then of the whitelist, propagates. */
  function CheckCompliance(p: Primitives, pp: PsiPrimitives, c: Checker, addresses: seq<Json>,
                           blacklist: seq<Json>, whitelist: seq<Json>, blNonces: int -> nat, wlNonces: int -> nat): (r: Result<Report>)
    ensures var blEnc := EncryptSet(p, pp, c.psi, blacklist, blNonces);
      blEnc.Err? ==> r == Err(blEnc.error)
    ensures var blEnc := EncryptSet(p, pp, c.psi, blacklist, blNonces);
            var wlEnc := EncryptSet(p, pp, c.psi, whitelist, wlNonces);
      blEnc.Ok? && wlEnc.Err? ==> r == Err(wlEnc.error)
    ensures var blEnc := EncryptSet(p, pp, c.psi, blacklist, blNonces);
            var wlEnc := EncryptSet(p, pp, c.psi, whitelist, wlNonces);
      blEnc.Ok? && wlEnc.Ok? ==>
        var bl := ComputeIntersection(p, pp, c.psi, addresses, blEnc.value);
        var wl := ComputeIntersection(p, pp, c.psi, addresses, wlEnc.value);
        && (r.Err? <==> bl.Err? || wl.Err?)
        && (r.Ok? ==> r.value.blacklistMatches == bl.value && r.value.whitelistMatches == wl.value)
    ensures r.Ok? ==> (r.value.status == "Compliant" <==> r.value.blacklistMatches == [])
    ensures r.Ok? ==> r.value.status == "Compliant" || r.value.status == "Non-compliant"
    ensures r.Ok? ==> (r.value.details.Some? <==> c.level == LevelAdvanced)
    ensures r.Ok? && r.value.details.Some? ==> r.value.details.value == AdvancedDetails
  {
    var blEnc :- EncryptSet(p, pp, c.psi, blacklist, blNonces);
    var wlEnc :- EncryptSet(p, pp, c.psi, whitelist, wlNonces);
    var bl :- ComputeIntersection(p, pp, c.psi, addresses, blEnc);
    var wl :- ComputeIntersection(p, pp, c.psi, addresses, wlEnc);
    var status := if bl == [] then "Compliant" else "Non-compliant";
    var details := if c.level == LevelAdvanced then Some(AdvancedDetails) else None;
    Ok(Report(bl, wl, status, details))
  }

  /** The whitelist never changes the status: two runs that differ only in
      the whitelist agree on it whenever both succeed. */
  lemma WhitelistIrrelevant(p: Primitives, pp: PsiPrimitives, c: Checker, addresses: seq<Json>, blacklist: seq<Json>,
                            wl1: seq<Json>, wl2: seq<Json>, blNonces: int -> nat, n1: int -> nat, n2: int -> nat)
    requires CheckCompliance(p, pp, c, addresses, blacklist, wl1, blNonces, n1).Ok?
    requires CheckCompliance(p, pp, c, addresses, blacklist, wl2, blNonces, n2).Ok?
    ensures CheckCompliance(p, pp, c, addresses, blacklist, wl1, blNonces, n1).value.status
         == CheckCompliance(p, pp, c, addresses, blacklist, wl2, blNonces, n2).value.status
  {
  }

  /** Under Paillier an empty blacklist gives a compliant report exactly when
      the whitelist can be encrypted; otherwise the whitelist's encryption
      error is raised. */
  lemma EmptyBlacklistCompliant(p: Primitives, pp: PsiPrimitives, c: Checker, addresses: seq<Json>,
                                whitelist: seq<Json>, blNonces: int -> nat, wlNonces: int -> nat)
    requires c.psi.Paillier?
    ensures var wlEnc := EncryptSet(p, pp, c.psi, whitelist, wlNonces);
            var r := CheckCompliance(p, pp, c, addresses, [], whitelist, blNonces, wlNonces);
      && (r.Ok? <==> wlEnc.Ok?)
      && (r.Ok? ==> r.value.status == "Compliant")
      && (wlEnc.Err? ==> r == Err(wlEnc.error))
  {
    EmptyReferenceEmptyIntersection(p, pp, c.psi, addresses);
    assert EncryptSet(p, pp, c.psi, [], blNonces) == Ok([]);
  }

  /** A Paillier checker cannot screen against a list of address strings:
      a blacklist, or an encryptable blacklist followed by a whitelist,
      whose first entry is not a number makes `check_compliance` raise
      TypeError. */
  lemma PaillierRejectsAddressLists(p: Primitives, pp: PsiPrimitives, c: Checker, addresses: seq<Json>,
                                    blacklist: seq<Json>, whitelist: seq<Json>, blNonces: int -> nat, wlNonces: int -> nat)
    requires c.psi.Paillier?
    requires (blacklist != [] && blacklist[0].JStr?)
          || (EncryptSet(p, pp, c.psi, blacklist, blNonces).Ok? && whitelist != [] && whitelist[0].JStr?)
    ensures CheckCompliance(p, pp, c, addresses, blacklist, whitelist, blNonces, wlNonces) == Err(NotEncodable)
  {
    if blacklist != [] && blacklist[0].JStr? {
      PaillierRejectsNonNumber(p, pp, c.psi, blacklist, blNonces);
    } else {
      PaillierRejectsNonNumber(p, pp, c.psi, whitelist, wlNonces);
    }
  }

  /** `verify_transaction(tx)`: screen exactly `[tx["sender"],
      tx["recipient"]]`; True iff the report is compliant. A missing field
      raises KeyError. */
  function VerifyTransaction(p: Primitives, pp: PsiPrimitives, c: Checker, tx: Json,
                             blacklist: seq<Json>, whitelist: seq<Json>, blNonces: int -> nat, wlNonces: int -> nat): (r: Result<bool>)
    ensures !HasKey(tx, "sender") || !HasKey(tx, "recipient") ==> r.Err?
    ensures tx.JObj? && !HasKey(tx, "sender") ==> r == Err(KeyError("sender"))
    ensures HasKey(tx, "sender") && HasKey(tx, "recipient") ==>
      var addresses := [ToMap(tx.entries)["sender"], ToMap(tx.entries)["recipient"]];
      var report := CheckCompliance(p, pp, c, addresses, blacklist, whitelist, blNonces, wlNonces);
      (r.Err? <==> report.Err?) && (r.Ok? ==> (r.value <==> report.value.blacklistMatches == []))
  {
    var sender :- Index(tx, "sender");
    var recipient :- Index(tx, "recipient");
    var report :- CheckCompliance(p, pp, c, [sender, recipient], blacklist, whitelist, blNonces, wlNonces);
    Ok(report.status == "Compliant")
  }

  /** Under Paillier, when both lists can be encrypted, a transaction passes
      iff neither its sender nor its recipient is among the encrypted
      blacklist entries. */
  lemma PaillierVerdict(p: Primitives, pp: PsiPrimitives, c: Checker, tx: Json,
                        blacklist: seq<Json>, whitelist: seq<Json>, blNonces: int -> nat, wlNonces: int -> nat)
    requires c.psi.Paillier? && HasKey(tx, "sender") && HasKey(tx, "recipient")
    ensures var enc := EncryptSet(p, pp, c.psi, blacklist, blNonces);
            var wlEnc := EncryptSet(p, pp, c.psi, whitelist, wlNonces);
            var r := VerifyTransaction(p, pp, c, tx, blacklist, whitelist, blNonces, wlNonces);
      && (enc.Err? ==> r == Err(enc.error))
      && (enc.Ok? && wlEnc.Err? ==> r == Err(wlEnc.error))
      && (enc.Ok? && wlEnc.Ok? ==>
            r == Ok(ToMap(tx.entries)["sender"] !in enc.value && ToMap(tx.entries)["recipient"] !in enc.value))
  {
    var enc := EncryptSet(p, pp, c.psi, blacklist, blNonces);
    if enc.Ok? {
      var addresses := [ToMap(tx.entries)["sender"], ToMap(tx.entries)["recipient"]];
      var keep := (x: Json) => x in enc.value;
      assert Filter(addresses, keep) == (if keep(addresses[0]) then [addresses[0]] else []) + Filter(addresses[1..], keep);
      assert addresses[1..][1..] == [];
    }
  }

  /** As written, a Paillier check never finds a blacklisted party: the
      blacklist is encrypted afresh on every call, and a ciphertext object
      equals no plain sender or recipient. Whenever both lists encrypt, every
      transaction whose parties are plain values passes. */
  lemma PaillierAlwaysCompliant(p: Primitives, pp: PsiPrimitives, c: Checker, tx: Json,
                                blacklist: seq<Json>, whitelist: seq<Json>, blNonces: int -> nat, wlNonces: int -> nat)
    requires c.psi.Paillier? && HasKey(tx, "sender") && HasKey(tx, "recipient")
    requires !ToMap(tx.entries)["sender"].JOpaque? && !ToMap(tx.entries)["recipient"].JOpaque?
    requires EncryptSet(p, pp, c.psi, blacklist, blNonces).Ok? && EncryptSet(p, pp, c.psi, whitelist, wlNonces).Ok?
    ensures VerifyTransaction(p, pp, c, tx, blacklist, whitelist, blNonces, wlNonces) == Ok(true)
  {
    var blEnc := EncryptSet(p, pp, c.psi, blacklist, blNonces).value;
    var wlEnc := EncryptSet(p, pp, c.psi, whitelist, wlNonces).value;
    PaillierCiphertexts(p, pp, c.psi, blacklist, blNonces);
    PaillierCiphertexts(p, pp, c.psi, whitelist, wlNonces);
    var addresses := [ToMap(tx.entries)["sender"], ToMap(tx.entries)["recipient"]];
    PaillierNoPlainMatches(p, pp, c.psi, addresses, blEnc);
    PaillierNoPlainMatches(p, pp, c.psi, addresses, wlEnc);
  }

  /** The transaction `{"sender": 7, "recipient": 8}` screened against the
      blacklist `[7]` passes, its sender being blacklisted. */
  lemma PaillierMissesBlacklisted(p: Primitives, pp: PsiPrimitives, c: Checker, blNonces: int -> nat, wlNonces: int -> nat)
    requires c.psi.Paillier? && pp.paillierMaxInt(c.psi.publicKey) >= 7
    ensures VerifyTransaction(p, pp, c, JObj([("sender", JInt(7)), ("recipient", JInt(8))]), [JInt(7)], [], blNonces, wlNonces)
         == Ok(true)
  {
    var tx := JObj([("sender", JInt(7)), ("recipient", JInt(8))]);
    assert ToMap(tx.entries) == map["recipient" := JInt(8)]["sender" := JInt(7)];
    assert EncryptItem(p, pp, c.psi, JInt(7), blNonces(0)).Ok?;
    PaillierAlwaysCompliant(p, pp, c, tx, [JInt(7)], [], blNonces, wlNonces);
  }

  /** The verdict the Paillier screening evidently intends: the parties are
      compared with the blacklist entries by value, not with freshly made
      ciphertext objects. It raises exactly what `VerifyTransaction` raises;
      under Schnorr it is `VerifyTransaction`. */
  function IntendedVerifyTransaction(p: Primitives, pp: PsiPrimitives, c: Checker, tx: Json,
                                     blacklist: seq<Json>, whitelist: seq<Json>, blNonces: int -> nat, wlNonces: int -> nat)
    : (r: Result<bool>)
    ensures c.psi.Schnorr? ==> r == VerifyTransaction(p, pp, c, tx, blacklist, whitelist, blNonces, wlNonces)
    ensures r.Err? <==> VerifyTransaction(p, pp, c, tx, blacklist, whitelist, blNonces, wlNonces).Err?
    ensures r.Err? ==> r == VerifyTransaction(p, pp, c, tx, blacklist, whitelist, blNonces, wlNonces)
  {
    if c.psi.Schnorr? then VerifyTransaction(p, pp, c, tx, blacklist, whitelist, blNonces, wlNonces)
    else
      var sender :- Index(tx, "sender");
      var recipient :- Index(tx, "recipient");
      var _ :- CheckCompliance(p, pp, c, [sender, recipient], blacklist, whitelist, blNonces, wlNonces);
      Ok(PlainIntersection([sender, recipient], blacklist) == [])
  }

  /** The two parties' filter against a list is empty iff neither is in it. */
  lemma PartiesUnlisted(sender: Json, recipient: Json, list: seq<Json>)
    ensures PlainIntersection([sender, recipient], list) == [] <==> sender !in list && recipient !in list
  {
    var r := PlainIntersection([sender, recipient], list);
    var parties := [sender, recipient];
    assert multiset(parties)[sender] > 0 && multiset(parties)[recipient] > 0;
    if r != [] {
      assert multiset(r)[r[0]] > 0;
    }
  }

  /** Under Paillier, when both lists encrypt, the intended verdict passes a
      transaction iff neither its sender nor its recipient is blacklisted. */
  lemma IntendedVerdict(p: Primitives, pp: PsiPrimitives, c: Checker, tx: Json,
                        blacklist: seq<Json>, whitelist: seq<Json>, blNonces: int -> nat, wlNonces: int -> nat)
    requires c.psi.Paillier? && HasKey(tx, "sender") && HasKey(tx, "recipient")
    requires EncryptSet(p, pp, c.psi, blacklist, blNonces).Ok? && EncryptSet(p, pp, c.psi, whitelist, wlNonces).Ok?
    ensures IntendedVerifyTransaction(p, pp, c, tx, blacklist, whitelist, blNonces, wlNonces)
         == Ok(ToMap(tx.entries)["sender"] !in blacklist && ToMap(tx.entries)["recipient"] !in blacklist)
  {
    PartiesUnlisted(ToMap(tx.entries)["sender"], ToMap(tx.entries)["recipient"], blacklist);
  }

  /** The intended verdict rejects the transaction `PaillierMissesBlacklisted`
      lets through. */
  lemma IntendedCatchesBlacklisted(p: Primitives, pp: PsiPrimitives, c: Checker, blNonces: int -> nat, wlNonces: int -> nat)
    requires c.psi.Paillier? && pp.paillierMaxInt(c.psi.publicKey) >= 7
    ensures IntendedVerifyTransaction(p, pp, c, JObj([("sender", JInt(7)), ("recipient", JInt(8))]), [JInt(7)], [], blNonces, wlNonces)
         == Ok(false)
  {
    var tx := JObj([("sender", JInt(7)), ("recipient", JInt(8))]);
    assert ToMap(tx.entries) == map["recipient" := JInt(8)]["sender" := JInt(7)];
    assert EncryptItem(p, pp, c.psi, JInt(7), blNonces(0)).Ok?;
    IntendedVerdict(p, pp, c, tx, [JInt(7)], [], blNonces, wlNonces);
  }
}
