/** Creating and validating stored transactions (data/transaction.py). A
    transaction is a header (sender, recipient, timestamp, amount), an id
    hashed from the header alone, its family, and a signature over all of
    that. It is stored in the notary store or in the ledger. The formatted
    clock reading `stamp` and the signing randomness `nonce` are parameters;
    the stores the source opens on each call are passed in. */
module DataTransaction {
  import opened Base
  import opened Assoc
  import opened Text
  import opened Json
  import opened Crypto
  import opened FormatUtils
  import opened DataUtils
  import opened Signature
  import LedgerStore
  import NotaryStore

  /** The header dict, in the order the source writes it. */
  function Header(sender: Json, recipient: Json, stamp: string, amount: Json): (r: seq<(string, Json)>)
    ensures UniqueKeys(r)
    ensures ToMap(r).Keys == {"sender", "recipient", "timestamp", "amount"}
    ensures ToMap(r)["sender"] == sender && ToMap(r)["recipient"] == recipient
    ensures ToMap(r)["timestamp"] == JStr(stamp) && ToMap(r)["amount"] == amount
  {
    var a, b, c, d := ("sender", sender), ("recipient", recipient), ("timestamp", JStr(stamp)), ("amount", amount);
    var h := [a, b, c, d];
    assert h[1..] == [b, c, d] && [b, c, d][1..] == [c, d] && [c, d][1..] == [d] && [d][1..] == [];
    assert ToMap([d]) == map[d.0 := d.1];
    assert ToMap([c, d]) == ToMap([d])[c.0 := c.1];
    assert ToMap([b, c, d]) == ToMap([c, d])[b.0 := b.1];
    h
  }

  /** The transaction id: the sorted-keys hash of the header alone. TypeError
      when a header value cannot be serialised. */
  function HeaderId(p: Primitives, sender: Json, recipient: Json, stamp: string, amount: Json): (r: Result<string>)
    ensures r.Ok? <==> Serializable(sender) && Serializable(recipient) && Serializable(amount)
    ensures r.Ok? ==> |r.value| == 64
  {
    HeaderSerializable(sender, recipient, stamp, amount);
    HashTransaction(p, JObj(Header(sender, recipient, stamp, amount)))
  }

  lemma HeaderSerializable(sender: Json, recipient: Json, stamp: string, amount: Json)
    ensures Serializable(JObj(Header(sender, recipient, stamp, amount)))
        <==> Serializable(sender) && Serializable(recipient) && Serializable(amount)
  {
    var h := Header(sender, recipient, stamp, amount);
    SerializableByMap(h);
    if Serializable(sender) && Serializable(recipient) && Serializable(amount) {
      forall k | k in ToMap(h) ensures Serializable(ToMap(h)[k]) {
        assert k == "sender" || k == "recipient" || k == "timestamp" || k == "amount";
      }
    } else if !Serializable(sender) {
      assert !Serializable(ToMap(h)["sender"]);
    } else if !Serializable(recipient) {
      assert !Serializable(ToMap(h)["recipient"]);
    } else {
      assert !Serializable(ToMap(h)["amount"]);
    }
  }

  /** The id depends on the header's contents only: any dict holding the same
      four fields, in any order, hashes to it. */
  lemma HeaderIdIgnoresOrder(p: Primitives, sender: Json, recipient: Json, stamp: string, amount: Json, other: seq<(string, Json)>)
    requires UniqueKeys(other) && ToMap(other) == ToMap(Header(sender, recipient, stamp, amount))
    ensures HashTransaction(p, JObj(other)) == HeaderId(p, sender, recipient, stamp, amount)
  {
    HashIgnoresKeyOrder(p, other, Header(sender, recipient, stamp, amount));
  }

  /** The signed body: `tx_id`, `header` and `tx_family`, then the signature
      over those three, added last. ValueError for a private key that is not
      hex. */
  function SignedBody(p: Primitives, family: Json, sender: Json, recipient: Json, amount: Json,
                      privateKey: string, stamp: string, nonce: nat): (r: Result<seq<(string, Json)>>)
    ensures r.Err? <==> HeaderId(p, sender, recipient, stamp, amount).Err? || FromHex(privateKey).None?
    ensures r.Ok? ==>
      var body := [("tx_id", JStr(HeaderId(p, sender, recipient, stamp, amount).value)),
                   ("header", JObj(Header(sender, recipient, stamp, amount))), ("tx_family", family)];
      && r.value == body + [("signature", JStr(SignTransaction(p, JObj(body), privateKey, nonce).value))]
  {
    var txId :- HeaderId(p, sender, recipient, stamp, amount);
    var body := [("tx_id", JStr(txId)), ("header", JObj(Header(sender, recipient, stamp, amount))), ("tx_family", family)];
    var signature :- SignTransaction(p, JObj(body), privateKey, nonce);
    assert "signature" !in ToMap(body) by { BodyKeys(body); }
    AssignFresh(body, "signature", JStr(signature));
    Ok(Assign(body, "signature", JStr(signature)))
  }

  lemma BodyKeys(body: seq<(string, Json)>)
    requires |body| == 3 && body[0].0 == "tx_id" && body[1].0 == "header" && body[2].0 == "tx_family"
    ensures ToMap(body).Keys == {"tx_id", "header", "tx_family"}
  {
    assert body[1..] == [body[1], body[2]] && [body[1], body[2]][1..] == [body[2]] && [body[2]][1..] == [];
    assert ToMap([body[2]]) == map[body[2].0 := body[2].1];
    assert ToMap([body[1], body[2]]) == ToMap([body[2]])[body[1].0 := body[1].1];
  }

  /** `create_transaction(...)`: build and sign the body, then save it in the
      notary store (with the given lifetime) or else in the ledger, and
      return it. The store not chosen is left as it was. */
  method CreateTransaction(p: Primitives, ledger: LedgerStore.LedgerDB, notary: NotaryStore.NotaryDB,
                           family: Json, sender: Json, recipient: Json, amount: Json, privateKey: string,
                           isNotary: bool, expirationMinutes: int, stamp: string, nonce: nat, now1: int, now2: int)
    returns (r: Result<Json>)
    requires ledger.Valid() && notary.Valid() && ledger.prims == p && notary.prims == p
    modifies ledger, notary
    ensures ledger.Valid() && notary.Valid()
    ensures SignedBody(p, family, sender, recipient, amount, privateKey, stamp, nonce).Err? ==>
      r.Err? && ledger.env == old(ledger.env) && notary.env == old(notary.env)
    ensures SignedBody(p, family, sender, recipient, amount, privateKey, stamp, nonce).Ok? ==>
      var body := JObj(SignedBody(p, family, sender, recipient, amount, privateKey, stamp, nonce).value);
      var record := NotaryStore.NotaryRecord(body, JNull, expirationMinutes, now1, now2);
      && (r.Ok? ==> r.value == body)
      && (isNotary ==> ledger.env == old(ledger.env)
                       && (record.Err? ==> r == Err(record.error))
                       && (record.Ok? ==> (r.Ok? <==> HashTransaction(p, record.value).Ok?))
                       && (r.Ok? ==> notary.env == Put(old(notary.env), NotaryStore.RecordKey(HashTransaction(p, record.value).value), record.value))
                       && (r.Err? ==> notary.env == old(notary.env)))
      && (!isNotary ==> notary.env == old(notary.env)
                        && (r.Ok? <==> LedgerStore.TxKey(p, body).Ok?)
                        && (r.Ok? ==> ledger.env == Put(old(ledger.env), LedgerStore.TxKey(p, body).value, body))
                        && (r.Err? ==> ledger.env == old(ledger.env)))
  {
    var signed := SignedBody(p, family, sender, recipient, amount, privateKey, stamp, nonce);
    if signed.Err? {
      return Err(signed.error);
    }
    var body := JObj(signed.value);
    if isNotary {
      var id := notary.SaveNotaryRecord(body, JNull, expirationMinutes, now1, now2);
      if id.Err? {
        return Err(id.error);
      }
    } else {
      var saved := ledger.SaveTransaction(body);
      if saved.Err? {
        return Err(saved.error);
      }
    }
    return Ok(body);
  }

  /** `s` occurs in `t` as a contiguous piece. */
  predicate IsInfix(s: string, t: string)
    decreases |t|
  {
    StartsWith(t, s) || (|t| > 0 && IsInfix(s, t[1..]))
  }

  /** `field in header` on a Python value: a key of a dict, a substring of a
      string, an element of a list; TypeError for anything else. */
  function Contains(header: Json, field: string): (r: Result<bool>)
    ensures r.Err? <==> !(header.JObj? || header.JStr? || header.JArr?)
    ensures header.JObj? ==> r == Ok(field in ToMap(header.entries))
  {
    match header
    case JObj(entries) => Ok(field in ToMap(entries))
    case JStr(s) => Ok(IsInfix(field, s))
    case JArr(items) => Ok(JStr(field) in items)
    case _ => Err(TypeError("argument is not iterable"))
  }

  /** `all(field in header for field in required_fields)`. */
  function HeaderComplete(header: Json): (r: Result<bool>)
    ensures r.Err? <==> !(header.JObj? || header.JStr? || header.JArr?)
    ensures header.JObj? ==> r == Ok({"sender", "recipient", "timestamp", "amount"} <= ToMap(header.entries).Keys)
  {
    if !(header.JObj? || header.JStr? || header.JArr?) then Err(TypeError("argument is not iterable"))
    else Ok(Contains(header, "sender") == Ok(true) && Contains(header, "recipient") == Ok(true)
            && Contains(header, "timestamp") == Ok(true) && Contains(header, "amount") == Ok(true))
  }

  /** `validate_transaction(tx, public_key)`: False when the header (an empty
      dict if there is none) lacks a required field, otherwise the verdict on
      the attached signature. A value that is not a dict has no `get`
      (AttributeError). */
  function ValidateTransaction(p: Primitives, tx: Json, publicKey: string): (r: Result<bool>)
    ensures !tx.JObj? ==> r == Err(AttributeError("get"))
    ensures tx.JObj? && !HasKey(tx, "header") ==> r == Ok(false)
    ensures HasKey(tx, "header") ==>
      var header := ToMap(tx.entries)["header"];
      && (HeaderComplete(header) == Ok(false) ==> r == Ok(false))
      && (HeaderComplete(header) == Ok(true) ==> r == VerifyAttached(p, tx, publicKey))
    ensures r == Ok(true) <==>
      tx.JObj? && HasKey(tx, "header") && HeaderComplete(ToMap(tx.entries)["header"]) == Ok(true)
      && VerifyAttached(p, tx, publicKey) == Ok(true)
  {
    if !tx.JObj? then Err(AttributeError("get"))
    else
      var header := match Get(tx.entries, "header") case Some(h) => h case None => JObj([]);
      var complete :- HeaderComplete(header);
      if !complete then Ok(false)
      else
        VerifyAttached(p, tx, publicKey)
  }

  /** Round trip: a transaction made by `create_transaction` validates under
      the signer's public key. */
  lemma CreatedTransactionValidates(p: Primitives, family: Json, sender: Json, recipient: Json, amount: Json,
                                    sk: Bytes, stamp: string, nonce: nat)
    requires EcdsaComplete(p)
    requires Serializable(sender) && Serializable(recipient) && Serializable(amount)
    ensures SignedBody(p, family, sender, recipient, amount, ToHex(sk), stamp, nonce).Ok?
    ensures ValidateTransaction(p, JObj(SignedBody(p, family, sender, recipient, amount, ToHex(sk), stamp, nonce).value),
                                ToHex(p.publicKeyOf(sk))) == Ok(true)
  {
    FromHexToHex(sk);
    var txId := HeaderId(p, sender, recipient, stamp, amount).value;
    var body := [("tx_id", JStr(txId)), ("header", JObj(Header(sender, recipient, stamp, amount))), ("tx_family", family)];
    BodyKeys(body);
    AttachedSignatureVerifies(p, body, sk, nonce);
    AssignFresh(body, "signature", JStr(SignTransaction(p, JObj(body), ToHex(sk), nonce).value));
    var tx := SignedBody(p, family, sender, recipient, amount, ToHex(sk), stamp, nonce).value;
    assert ToMap(tx) == ToMap(body)["signature" := JStr(SignTransaction(p, JObj(body), ToHex(sk), nonce).value)];
    assert ToMap(body)["header"] == JObj(Header(sender, recipient, stamp, amount)) by {
      assert body[1..] == [body[1], body[2]];
      assert ToMap(body) == ToMap(body[1..])[body[0].0 := body[0].1];
    }
  }
}
