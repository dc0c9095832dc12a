/** The transaction flow (transactions/transaction_flow.py): create, sign,
    store and anchor transactions over a ledger store and an anchor
    component. The anchor component's class, `TransactionAnchor`, is imported
    from a module that does not define it; it is modelled as `AnchorStore`,
    which anchors and cancels by the rules of the transaction emulator. */
module TransactionFlow {
  import opened Base
  import opened Assoc
  import opened Json
  import opened Crypto
  import opened FormatUtils
  import opened Signature
  import LedgerStore
  import opened TransactionEmulator

  /** The anchor component: transaction objects by id, in insertion order,
      and the cancellation window in seconds. */
  class AnchorStore {
    const cancellationWindow: int
    var anchors: seq<(string, PyDict)>

    ghost predicate Valid()
      reads this
    {
      UniqueKeys(anchors)
    }

    constructor(window: int)
      ensures Valid() && cancellationWindow == window && anchors == []
    {
      cancellationWindow := window;
      anchors := [];
    }

    /** `anchor_transaction(tx)`: stamp the object with `anchored = now` and
        keep it under its id; KeyError when it has none, TypeError when the
        id is not a string. */
    method AnchorTransaction(tx: PyDict, now: int) returns (r: Result<()>)
      requires Valid()
      modifies this, tx
      ensures Valid()
      ensures "tx_id" !in ToMap(old(tx.entries)) ==> r == Err(KeyError("tx_id"))
      ensures "tx_id" in ToMap(old(tx.entries)) && !ToMap(old(tx.entries))["tx_id"].JStr? ==> r.Err? && r.error.TypeError?
      ensures r.Ok? <==> "tx_id" in ToMap(old(tx.entries)) && ToMap(old(tx.entries))["tx_id"].JStr?
      ensures r.Ok? ==>
        && tx.entries == Assign(old(tx.entries), "anchored", JInt(now))
        && anchors == Assign(old(anchors), ToMap(old(tx.entries))["tx_id"].s, tx)
      ensures r.Err? ==> tx.entries == old(tx.entries) && anchors == old(anchors)
    {
      var id := Index(JObj(tx.entries), "tx_id");
      if id.Err? {
        return Err(id.error);
      }
      if !id.value.JStr? {
        return Err(TypeError("transaction id is not a string"));
      }
      tx.entries := Assign(tx.entries, "anchored", JInt(now));
      AssignUnique(anchors, id.value.s, tx);
      anchors := Assign(anchors, id.value.s, tx);
      return Ok(());
    }

    /** `cancel_anchor(tx_id)`: False for an id never anchored; otherwise the
        window verdict on the object, and on success exactly that id goes. */
    method CancelAnchor(txId: string, now: int) returns (r: Result<bool>)
      requires Valid()
      modifies this
      ensures Valid()
      ensures txId !in ToMap(old(anchors)) ==> r == Ok(false)
      ensures txId in ToMap(old(anchors)) ==>
        r == CancelVerdict(ToMap(old(anchors))[txId].entries, now, cancellationWindow)
      ensures r == Ok(true) ==> ToMap(anchors) == ToMap(old(anchors)) - {txId}
      ensures r != Ok(true) ==> anchors == old(anchors)
    {
      var found := Get(anchors, txId);
      if found.None? {
        return Ok(false);
      }
      r := CancelVerdict(found.value.entries, now, cancellationWindow);
      if r == Ok(true) {
        RemoveUnique(anchors, txId);
        anchors := Remove(anchors, txId);
      }
    }
  }

  /** A `TransactionFlow`: a ledger store and an anchor component. */
  class TransactionFlow {
    const prims: Primitives
    const ledgerDb: LedgerStore.LedgerDB
    const anchor: AnchorStore

    ghost predicate Valid()
      reads this, ledgerDb, anchor
    {
      ledgerDb.Valid() && anchor.Valid() && ledgerDb.prims == prims
    }

    /** `TransactionFlow(cancellation_window=120)`: an empty ledger and an
        empty anchor component with the given window. */
    constructor(p: Primitives, cancellationWindow: int)
      ensures Valid() && prims == p && fresh(ledgerDb) && fresh(anchor)
      ensures ledgerDb.env == [] && anchor.anchors == [] && anchor.cancellationWindow == cancellationWindow
    {
      prims := p;
      ledgerDb := new LedgerStore.LedgerDB(p);
      anchor := new AnchorStore(cancellationWindow);
    }

    /** `create_and_encrypt_transaction(..., anchor)`: sign the five-field
        body, store its serialised form in the ledger, and anchor the object
        when `doAnchor` holds. An exception while signing or saving (an
        opaque encrypted amount or commitment that cannot be serialised)
        leaves both stores as they were. */
    method CreateAndEncryptTransaction(family: Json, sender: Json, recipient: Json, amount: Json, privateKey: string,
                                       doAnchor: bool, stamp: string, encrypted: Json, commitment: Json, nonce: nat,
                                       now: int)
      returns (r: Result<PyDict>)
      requires Valid()
      modifies ledgerDb, anchor
      ensures Valid()
      ensures var signed := SignedTransaction(prims, family, sender, recipient, amount, privateKey, stamp, encrypted, commitment, nonce);
        && (r.Ok? <==> signed.Ok? && LedgerStore.TxKey(prims, JObj(signed.value)).Ok?)
        && (r.Ok? ==>
              && fresh(r.value)
              && ledgerDb.env == Put(old(ledgerDb.env), LedgerStore.TxKey(prims, JObj(signed.value)).value, JObj(signed.value))
              && r.value.entries == (if doAnchor then Assign(signed.value, "anchored", JInt(now)) else signed.value)
              && anchor.anchors == (if doAnchor then Assign(old(anchor.anchors), DataTransaction.HeaderId(prims, sender, recipient, stamp, amount).value, r.value)
                                    else old(anchor.anchors)))
      ensures r.Err? ==> ledgerDb.env == old(ledgerDb.env) && anchor.anchors == old(anchor.anchors)
    {
      var signed := SignedTransaction(prims, family, sender, recipient, amount, privateKey, stamp, encrypted, commitment, nonce);
      if signed.Err? {
        return Err(signed.error);
      }
      var saved := ledgerDb.SaveTransaction(JObj(signed.value));
      if saved.Err? {
        return Err(saved.error);
      }
      var body := new PyDict(signed.value);
      if doAnchor {
        SignedCarriesId(prims, family, sender, recipient, amount, privateKey, stamp, encrypted, commitment, nonce);
        var _ := anchor.AnchorTransaction(body, now);
      }
      return Ok(body);
    }

    /** `validate_and_anchor_transaction(tx, public_key)`: the emulator's
        validation, and only on success the anchoring. */
    method ValidateAndAnchorTransaction(tx: PyDict, publicKey: string, now: int) returns (r: Result<bool>)
      requires Valid()
      modifies tx, anchor
      ensures Valid()
      ensures ledgerDb.env == old(ledgerDb.env)
      ensures ValidateTransaction(prims, JObj(old(tx.entries)), publicKey) != Ok(true) ==>
        r == ValidateTransaction(prims, JObj(old(tx.entries)), publicKey)
        && tx.entries == old(tx.entries) && anchor.anchors == old(anchor.anchors)
      ensures r == Ok(true) <==>
        ValidateTransaction(prims, JObj(old(tx.entries)), publicKey) == Ok(true)
        && "tx_id" in ToMap(old(tx.entries)) && ToMap(old(tx.entries))["tx_id"].JStr?
      ensures ValidateTransaction(prims, JObj(old(tx.entries)), publicKey) == Ok(true) ==>
        && ("tx_id" !in ToMap(old(tx.entries)) ==> r == Err(KeyError("tx_id")))
        && ("tx_id" in ToMap(old(tx.entries)) && !ToMap(old(tx.entries))["tx_id"].JStr? ==> r.Err? && r.error.TypeError?)
      ensures r != Ok(true) ==> tx.entries == old(tx.entries) && anchor.anchors == old(anchor.anchors)
      ensures r == Ok(true) ==>
        && tx.entries == Assign(old(tx.entries), "anchored", JInt(now))
        && anchor.anchors == Assign(old(anchor.anchors), ToMap(old(tx.entries))["tx_id"].s, tx)
    {
      r := ValidateTransaction(prims, JObj(tx.entries), publicKey);
      if r != Ok(true) {
        return;
      }
      var anchored := anchor.AnchorTransaction(tx, now);
      if anchored.Err? {
        return Err(anchored.error);
      }
    }

    /** `cancel_transaction(tx_id)`: exactly the anchor component's
        `cancel_anchor`. */
    method CancelTransaction(txId: string, now: int) returns (r: Result<bool>)
      requires Valid()
      modifies anchor
      ensures Valid()
      ensures ledgerDb.env == old(ledgerDb.env)
      ensures txId !in ToMap(old(anchor.anchors)) ==> r == Ok(false)
      ensures txId in ToMap(old(anchor.anchors)) ==>
        r == CancelVerdict(ToMap(old(anchor.anchors))[txId].entries, now, anchor.cancellationWindow)
      ensures r == Ok(true) ==> ToMap(anchor.anchors) == ToMap(old(anchor.anchors)) - {txId}
      ensures r != Ok(true) ==> anchor.anchors == old(anchor.anchors)
    {
      r := anchor.CancelAnchor(txId, now);
    }
  }

  /** A client run: a transaction created without anchoring is in the ledger
      but not anchored, so cancelling it fails; once validated under the
      signer's key it is anchored, and cancelling at that moment succeeds. */
  method CreateValidateCancel(p: Primitives, family: Json, sender: Json, recipient: Json, amount: Json, sk: Bytes,
                              stamp: string, nonce: nat, now: int)
    returns (early: Result<bool>, valid: Result<bool>, cancelled: Result<bool>)
    requires EcdsaComplete(p)
    requires Serializable(family) && Serializable(sender) && Serializable(recipient) && Serializable(amount)
    ensures early == Ok(false) && valid == Ok(true) && cancelled == Ok(true)
  {
    var flow := new TransactionFlow(p, DefaultWindow);
    var encrypted, commitment := JInt(0), JStr("");
    var signed := SignedTransaction(p, family, sender, recipient, amount, ToHex(sk), stamp, encrypted, commitment, nonce);
    CreatedTransactionValidates(p, family, sender, recipient, amount, sk, stamp, encrypted, commitment, nonce);
    SignedCarriesId(p, family, sender, recipient, amount, ToHex(sk), stamp, encrypted, commitment, nonce);
    SignedSerializable(p, family, sender, recipient, amount, ToHex(sk), stamp, encrypted, commitment, nonce);
    var created := flow.CreateAndEncryptTransaction(family, sender, recipient, amount, ToHex(sk), false, stamp,
                                                    encrypted, commitment, nonce, now);
    var tx := created.value;
    var txId := ToMap(tx.entries)["tx_id"].s;
    early := flow.CancelTransaction(txId, now);
    valid := flow.ValidateAndAnchorTransaction(tx, ToHex(p.publicKeyOf(sk)), now);
    assert ToMap(flow.anchor.anchors)[txId] == tx;
    CancelBoundary(tx.entries, now, 0);
    cancelled := flow.CancelTransaction(txId, now);
  }
}
