/** The in-memory transaction emulator (transactions/transaction_emulator.py):
    a ledger dict and a notary dict of transaction objects, and a
    cancellation window of 120 seconds. Anchoring stamps the transaction
    object itself, so the ledger, which holds the same object, sees the stamp
    too. The clock (`now`, whole seconds), the formatted timestamp `stamp`,
    the signing randomness `nonce`, and the encrypted amount and commitment
    (computed by functions the module imports but the repository does not
    define) are parameters. */
module TransactionEmulator {
  import opened Base
  import opened Assoc
  import opened Json
  import opened Crypto
  import opened FormatUtils
  import opened Signature
  import DataTransaction

  /** A Python dict object: callers holding the same object see every
      change made to it. */
  class PyDict {
    var entries: seq<(string, Json)>

    constructor(e: seq<(string, Json)>)
      ensures entries == e
    {
      entries := e;
    }
  }

  /** `self.cancellation_window = 120  # seconds`. */
  const DefaultWindow: int := 120

  /** The five fields `create_transaction` signs, in insertion order. */
  function Body(txId: string, header: Json, encrypted: Json, commitment: Json, family: Json): seq<(string, Json)>
  {
    [("tx_id", JStr(txId)), ("header", header), ("encrypted_amount", encrypted), ("commitment", commitment),
     ("tx_family", family)]
  }

  /** The keys of a body before it is signed. */
  lemma BodyKeys(body: seq<(string, Json)>)
    requires |body| == 5 && body[0].0 == "tx_id" && body[1].0 == "header" && body[2].0 == "encrypted_amount"
    requires body[3].0 == "commitment" && body[4].0 == "tx_family"
    ensures ToMap(body).Keys == {"tx_id", "header", "encrypted_amount", "commitment", "tx_family"}
    ensures ToMap(body)["tx_id"] == body[0].1 && ToMap(body)["header"] == body[1].1
    ensures ToMap(body)["commitment"] == body[3].1
  {
    var t := body[1..];
    assert t == [body[1], body[2], body[3], body[4]];
    assert t[1..] == [body[2], body[3], body[4]] && t[1..][1..] == [body[3], body[4]];
    assert t[1..][1..][1..] == [body[4]] && [body[4]][1..] == [];
    assert ToMap([body[4]]) == map[body[4].0 := body[4].1];
    assert ToMap([body[3], body[4]]) == ToMap([body[4]])[body[3].0 := body[3].1];
    assert ToMap(t[1..]) == ToMap([body[3], body[4]])[body[2].0 := body[2].1];
    assert ToMap(t) == ToMap(t[1..])[body[1].0 := body[1].1];
  }

  /** A body with its signature added last: the six fields it then holds,
      and when it serialises. */
  lemma SignedFields(txId: string, header: Json, encrypted: Json, commitment: Json, family: Json, signature: string)
    ensures var body := Body(txId, header, encrypted, commitment, family);
      var e := body + [("signature", JStr(signature))];
      && "signature" !in ToMap(body)
      && Assign(body, "signature", JStr(signature)) == e
      && "tx_id" in ToMap(e) && ToMap(e)["tx_id"] == JStr(txId)
      && "header" in ToMap(e) && ToMap(e)["header"] == header
      && "commitment" in ToMap(e) && ToMap(e)["commitment"] == commitment
      && "tx_family" in ToMap(e)
      && (Serializable(JObj(e)) <==> Serializable(header) && Serializable(encrypted) && Serializable(commitment)
                                     && Serializable(family))
  {
    var body := Body(txId, header, encrypted, commitment, family);
    BodyKeys(body);
    AssignFresh(body, "signature", JStr(signature));
    SixSerializable(body + [("signature", JStr(signature))]);
  }

  /** Six fields, the first and last strings, serialise exactly when the
      four between them do. */
  lemma SixSerializable(e: seq<(string, Json)>)
    requires |e| == 6 && e[0].1.JStr? && e[5].1.JStr?
    ensures Serializable(JObj(e)) <==> Serializable(e[1].1) && Serializable(e[2].1) && Serializable(e[3].1) && Serializable(e[4].1)
  {
    if Serializable(e[1].1) && Serializable(e[2].1) && Serializable(e[3].1) && Serializable(e[4].1) {
      forall i | 0 <= i < |e| ensures Serializable(e[i].1) {
        assert i == 0 || i == 1 || i == 2 || i == 3 || i == 4 || i == 5;
      }
    }
  }

  /** The transaction `create_transaction` builds: `tx_id` (the header hash),
      `header`, `encrypted_amount`, `commitment` and `tx_family`, then the
      signature over those five, added last. */
  function SignedTransaction(p: Primitives, family: Json, sender: Json, recipient: Json, amount: Json,
                             privateKey: string, stamp: string, encrypted: Json, commitment: Json, nonce: nat)
    : (r: Result<seq<(string, Json)>>)
    ensures r.Err? <==> DataTransaction.HeaderId(p, sender, recipient, stamp, amount).Err? || FromHex(privateKey).None?
    ensures r.Ok? ==>
      var body := Body(DataTransaction.HeaderId(p, sender, recipient, stamp, amount).value,
                       JObj(DataTransaction.Header(sender, recipient, stamp, amount)), encrypted, commitment, family);
      && r.value == body + [("signature", JStr(SignTransaction(p, JObj(body), privateKey, nonce).value))]
  {
    var txId :- DataTransaction.HeaderId(p, sender, recipient, stamp, amount);
    var header := JObj(DataTransaction.Header(sender, recipient, stamp, amount));
    var body := Body(txId, header, encrypted, commitment, family);
    var signature :- SignTransaction(p, JObj(body), privateKey, nonce);
    SignedFields(txId, header, encrypted, commitment, family, signature);
    Ok(Assign(body, "signature", JStr(signature)))
  }

  /** The verdict of `cancel_transaction` on a stored transaction: False for
      an empty dict, and False once more than `window` seconds have passed
      since `anchored`; KeyError when it was never anchored, TypeError when
      the stamp is not a number. */
  function CancelVerdict(tx: seq<(string, Json)>, now: int, window: int): (r: Result<bool>)
    ensures tx == [] ==> r == Ok(false)
    ensures tx != [] && "anchored" !in ToMap(tx) ==> r == Err(KeyError("anchored"))
    ensures r == Ok(true) <==>
      tx != [] && "anchored" in ToMap(tx) && AsInt(ToMap(tx)["anchored"]).Some?
      && now - AsInt(ToMap(tx)["anchored"]).value <= window
    ensures r.Err? <==> tx != [] && ("anchored" !in ToMap(tx) || AsInt(ToMap(tx)["anchored"]).None?)
  {
    if tx == [] then Ok(false)
    else
      match Get(tx, "anchored")
      case None => Err(KeyError("anchored"))
      case Some(stamp) =>
        match AsInt(stamp)
        case None => Err(TypeError("unsupported operand type(s) for -"))
        case Some(t) => Ok(!(now - t > window))
  }

  /** The window is inclusive: exactly `window` seconds after anchoring a
      cancellation still succeeds, one second later it fails. */
  lemma CancelBoundary(tx: seq<(string, Json)>, t: int, window: int)
    requires "anchored" in ToMap(tx) && ToMap(tx)["anchored"] == JInt(t)
    ensures CancelVerdict(tx, t + window, window) == Ok(true)
    ensures CancelVerdict(tx, t + window + 1, window) == Ok(false)
  {
  }

  /** `verify_commitment(commitment, amount, public_key)`: a placeholder that
      accepts everything. */
  function VerifyCommitment(commitment: Json, amount: Json, publicKey: string): (r: bool)
    ensures r
  {
    true
  }

  /** `validate_transaction(tx, public_key)`: the signature check, then the
      placeholder commitment check, which reads `tx["commitment"]` and
      `tx["header"]["amount"]` (KeyError or TypeError when they are not
      there) and always passes. */
  function ValidateTransaction(p: Primitives, tx: Json, publicKey: string): (r: Result<bool>)
    ensures VerifyAttached(p, tx, publicKey).Err? ==> r == VerifyAttached(p, tx, publicKey)
    ensures VerifyAttached(p, tx, publicKey) == Ok(false) ==> r == Ok(false)
    ensures (VerifyAttached(p, tx, publicKey) == Ok(true) && HasKey(tx, "commitment") && HasKey(tx, "header")
             && HasKey(ToMap(tx.entries)["header"], "amount")) ==> r == Ok(true)
    ensures r == Ok(true) ==> VerifyAttached(p, tx, publicKey) == Ok(true)
  {
    var valid :- VerifyAttached(p, tx, publicKey);
    if !valid then Ok(false)
    else
      var commitment :- Index(tx, "commitment");
      var header :- Index(tx, "header");
      var amount :- Index(header, "amount");
      Ok(VerifyCommitment(commitment, amount, publicKey))
  }

  /** What `create_transaction` returns passes `validate_transaction` under
      the signer's public key: the signature was made over the body it is
      checked against, and the commitment check always passes. */
  lemma CreatedTransactionValidates(p: Primitives, family: Json, sender: Json, recipient: Json, amount: Json,
                                    sk: Bytes, stamp: string, encrypted: Json, commitment: Json, nonce: nat)
    requires EcdsaComplete(p)
    requires Serializable(sender) && Serializable(recipient) && Serializable(amount)
    ensures var signed := SignedTransaction(p, family, sender, recipient, amount, ToHex(sk), stamp, encrypted, commitment, nonce);
      signed.Ok? && ValidateTransaction(p, JObj(signed.value), ToHex(p.publicKeyOf(sk))) == Ok(true)
  {
    FromHexToHex(sk);
    var txId := DataTransaction.HeaderId(p, sender, recipient, stamp, amount).value;
    var header := JObj(DataTransaction.Header(sender, recipient, stamp, amount));
    var body := Body(txId, header, encrypted, commitment, family);
    var signature := SignTransaction(p, JObj(body), ToHex(sk), nonce).value;
    SignedFields(txId, header, encrypted, commitment, family, signature);
    AttachedSignatureVerifies(p, body, sk, nonce);
  }

  /** A `TransactionEmulator`: its two storages, dicts from transaction id to
      transaction object in insertion order, and its window. */
  class TransactionEmulator {
    const prims: Primitives
    const cancellationWindow: int
    var ledgerStorage: seq<(string, PyDict)>
    var notaryStorage: seq<(string, PyDict)>

    ghost predicate Valid()
      reads this
    {
      UniqueKeys(ledgerStorage) && UniqueKeys(notaryStorage)
    }

    /** `TransactionEmulator()`: both storages empty, a 120 s window. */
    constructor(p: Primitives)
      ensures Valid() && prims == p && cancellationWindow == DefaultWindow
      ensures ledgerStorage == [] && notaryStorage == []
    {
      prims := p;
      cancellationWindow := DefaultWindow;
      ledgerStorage := [];
      notaryStorage := [];
    }

    /** `create_transaction(...)`: build and sign a new transaction object and
        store it in the ledger storage under its id; the notary storage is
        not touched. */
    method CreateTransaction(family: Json, sender: Json, recipient: Json, amount: Json, privateKey: string,
                             stamp: string, encrypted: Json, commitment: Json, nonce: nat)
      returns (r: Result<PyDict>)
      requires Valid()
      modifies this
      ensures Valid()
      ensures notaryStorage == old(notaryStorage)
      ensures var signed := SignedTransaction(prims, family, sender, recipient, amount, privateKey, stamp, encrypted, commitment, nonce);
        && (signed.Err? ==> r.Err? && ledgerStorage == old(ledgerStorage))
        && (signed.Ok? ==> r.Ok? && fresh(r.value) && r.value.entries == signed.value
                           && ledgerStorage == Assign(old(ledgerStorage), DataTransaction.HeaderId(prims, sender, recipient, stamp, amount).value, r.value))
    {
      var signed := SignedTransaction(prims, family, sender, recipient, amount, privateKey, stamp, encrypted, commitment, nonce);
      if signed.Err? {
        return Err(signed.error);
      }
      var txId := DataTransaction.HeaderId(prims, sender, recipient, stamp, amount).value;
      var tx := new PyDict(signed.value);
      AssignUnique(ledgerStorage, txId, tx);
      ledgerStorage := Assign(ledgerStorage, txId, tx);
      return Ok(tx);
    }

    /** `anchor_transaction(tx)`: stamp the object with `anchored = now` and
        store it in the notary storage under its id. KeyError, with nothing
        changed, when it has no `tx_id`. The storages are keyed by strings, so
        an id of another type is refused with TypeError. */
    method AnchorTransaction(tx: PyDict, now: int) returns (r: Result<string>)
      requires Valid()
      modifies this, tx
      ensures Valid()
      ensures ledgerStorage == old(ledgerStorage)
      ensures "tx_id" !in ToMap(old(tx.entries)) ==> r == Err(KeyError("tx_id"))
      ensures r.Ok? <==> "tx_id" in ToMap(old(tx.entries)) && ToMap(old(tx.entries))["tx_id"].JStr?
      ensures r.Ok? ==>
        var txId := ToMap(old(tx.entries))["tx_id"].s;
        && r.value == "Transaction " + txId + " anchored in notary storage."
        && tx.entries == Assign(old(tx.entries), "anchored", JInt(now))
        && notaryStorage == Assign(old(notaryStorage), txId, tx)
      ensures r.Err? ==> tx.entries == old(tx.entries) && notaryStorage == old(notaryStorage)
    {
      var id := Index(JObj(tx.entries), "tx_id");
      if id.Err? {
        return Err(id.error);
      }
      if !id.value.JStr? {
        return Err(TypeError("transaction id is not a string"));
      }
      var txId := id.value.s;
      tx.entries := Assign(tx.entries, "anchored", JInt(now));
      AssignUnique(notaryStorage, txId, tx);
      notaryStorage := Assign(notaryStorage, txId, tx);
      return Ok("Transaction " + txId + " anchored in notary storage.");
    }

    /** `cancel_transaction(tx_id)`: False for an id that is not anchored;
        otherwise the verdict on the stored object, and on success exactly
        that id leaves the notary storage. The ledger storage and every
        transaction object stay as they were. */
    method CancelTransaction(txId: string, now: int) returns (r: Result<bool>)
      requires Valid()
      modifies this
      ensures Valid()
      ensures ledgerStorage == old(ledgerStorage)
      ensures txId !in ToMap(old(notaryStorage)) ==> r == Ok(false)
      ensures txId in ToMap(old(notaryStorage)) ==>
        r == CancelVerdict(ToMap(old(notaryStorage))[txId].entries, now, cancellationWindow)
      ensures r == Ok(true) ==>
        notaryStorage == Remove(old(notaryStorage), txId) && ToMap(notaryStorage) == ToMap(old(notaryStorage)) - {txId}
      ensures r != Ok(true) ==> notaryStorage == old(notaryStorage)
    {
      var found := Get(notaryStorage, txId);
      if found.None? {
        return Ok(false);
      }
      r := CancelVerdict(found.value.entries, now, cancellationWindow);
      if r == Ok(true) {
        RemoveUnique(notaryStorage, txId);
        notaryStorage := Remove(notaryStorage, txId);
      }
    }

    /** `list_ledger_transactions()`: every stored object, in insertion
        order. */
    function ListLedgerTransactions(): (r: seq<PyDict>)
      reads this
      ensures |r| == |ledgerStorage|
      ensures forall k | k in ToMap(ledgerStorage) :: ToMap(ledgerStorage)[k] in r
    {
      ValuesListed(ledgerStorage);
      Values(ledgerStorage)
    }

    /** `list_notary_anchors()`: every anchored object, in insertion order. */
    function ListNotaryAnchors(): (r: seq<PyDict>)
      reads this
      ensures |r| == |notaryStorage|
      ensures forall k | k in ToMap(notaryStorage) :: ToMap(notaryStorage)[k] in r
    {
      ValuesListed(notaryStorage);
      Values(notaryStorage)
    }
  }

  /** Every value a dict maps to is among its values. */
  lemma ValuesListed<V>(s: seq<(string, V)>)
    ensures forall k | k in ToMap(s) :: ToMap(s)[k] in Values(s)
  {
    forall k | k in ToMap(s) ensures ToMap(s)[k] in Values(s) {
      FirstValue(s, k);
    }
  }

  lemma {:induction false} FirstValue<V>(s: seq<(string, V)>, k: string)
    requires k in ToMap(s)
    ensures ToMap(s)[k] in Values(s)
  {
    if s[0].0 != k {
      FirstValue(s[1..], k);
      assert Values(s) == [s[0].1] + Values(s[1..]);
    }
  }

  /** A second cancellation of the same id at the same moment fails. */
  method CancelTwice(em: TransactionEmulator, txId: string, now: int) returns (first: Result<bool>, second: Result<bool>)
    requires em.Valid()
    modifies em
    ensures first == Ok(true) ==> second == Ok(false)
    ensures first != Ok(true) ==> second == first
  {
    first := em.CancelTransaction(txId, now);
    if first == Ok(true) {
      assert txId !in ToMap(em.notaryStorage);
    } else if txId in ToMap(em.notaryStorage) {
      ghost var i := IndexOf(em.notaryStorage, txId);
      ToMapAt(em.notaryStorage, i);
      ghost var stored := em.notaryStorage[i].1;
      ghost var entries := stored.entries;
      second := em.CancelTransaction(txId, now);
      assert stored.entries == entries;
      return;
    }
    second := em.CancelTransaction(txId, now);
  }

  /** A signed transaction carries its header id under `tx_id`. */
  lemma SignedCarriesId(p: Primitives, family: Json, sender: Json, recipient: Json, amount: Json,
                        privateKey: string, stamp: string, encrypted: Json, commitment: Json, nonce: nat)
    requires SignedTransaction(p, family, sender, recipient, amount, privateKey, stamp, encrypted, commitment, nonce).Ok?
    ensures var tx := SignedTransaction(p, family, sender, recipient, amount, privateKey, stamp, encrypted, commitment, nonce).value;
      "tx_id" in ToMap(tx) && ToMap(tx)["tx_id"] == JStr(DataTransaction.HeaderId(p, sender, recipient, stamp, amount).value)
  {
    var txId := DataTransaction.HeaderId(p, sender, recipient, stamp, amount).value;
    var header := JObj(DataTransaction.Header(sender, recipient, stamp, amount));
    var body := Body(txId, header, encrypted, commitment, family);
    SignedFields(txId, header, encrypted, commitment, family, SignTransaction(p, JObj(body), privateKey, nonce).value);
  }

  /** A signed transaction is a dict with a `tx_family` field, and it
      serialises exactly when its family, encrypted amount and commitment
      do: an opaque encrypted amount makes `json.dumps` raise. */
  lemma SignedSerializable(p: Primitives, family: Json, sender: Json, recipient: Json, amount: Json,
                           privateKey: string, stamp: string, encrypted: Json, commitment: Json, nonce: nat)
    requires SignedTransaction(p, family, sender, recipient, amount, privateKey, stamp, encrypted, commitment, nonce).Ok?
    ensures var tx := JObj(SignedTransaction(p, family, sender, recipient, amount, privateKey, stamp, encrypted, commitment, nonce).value);
      && HasKey(tx, "tx_family")
      && (Serializable(tx) <==> Serializable(family) && Serializable(encrypted) && Serializable(commitment))
  {
    var txId := DataTransaction.HeaderId(p, sender, recipient, stamp, amount).value;
    var header := JObj(DataTransaction.Header(sender, recipient, stamp, amount));
    var body := Body(txId, header, encrypted, commitment, family);
    DataTransaction.HeaderSerializable(sender, recipient, stamp, amount);
    SignedFields(txId, header, encrypted, commitment, family, SignTransaction(p, JObj(body), privateKey, nonce).value);
  }

  /** A client run: create a transaction and anchor it at `t`; cancelling
      `window` seconds later succeeds and a second cancellation fails. */
  method AnchorThenCancel(p: Primitives, family: Json, sender: Json, recipient: Json, amount: Json, privateKey: string,
                          stamp: string, encrypted: Json, commitment: Json, nonce: nat, t: int)
    returns (cancelled: Result<bool>, again: Result<bool>)
    requires Serializable(sender) && Serializable(recipient) && Serializable(amount) && FromHex(privateKey).Some?
    ensures cancelled == Ok(true) && again == Ok(false)
  {
    var em := new TransactionEmulator(p);
    var created := em.CreateTransaction(family, sender, recipient, amount, privateKey, stamp, encrypted, commitment, nonce);
    var tx := created.value;
    var txId := DataTransaction.HeaderId(p, sender, recipient, stamp, amount).value;
    SignedCarriesId(p, family, sender, recipient, amount, privateKey, stamp, encrypted, commitment, nonce);
    var anchored := em.AnchorTransaction(tx, t);
    assert ToMap(em.notaryStorage)[txId] == tx;
    CancelBoundary(tx.entries, t, em.cancellationWindow);
    cancelled := em.CancelTransaction(txId, t + em.cancellationWindow);
    again := em.CancelTransaction(txId, t + em.cancellationWindow);
  }
}
