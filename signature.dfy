/** ECDSA signatures and Ethereum-style addresses (encryption/signature.py).
    The curve arithmetic and the ECDSA algorithm are the uninterpreted
    `ecdsaSign`/`ecdsaVerify` primitives. */
module Signature {
  import opened Base
  import opened Assoc
  import opened Text
  import opened Json
  import opened Crypto
  import opened FormatUtils
  import Pedersen

  /** The message both signing and verification hash: Keccak-256 of the UTF-8
      text of `str(tx)`. */
  function MessageDigest(p: Primitives, tx: Json): Digest
  {
    p.keccak(Utf8(p.pyStr(tx)))
  }

  /** `sign_transaction(tx, private_key)`: the hex signature of the message
      digest; `bytes.fromhex` raises ValueError on a key that is not hex.
      `nonce` is the randomness the signing library draws. */
  function SignTransaction(p: Primitives, tx: Json, privateKey: string, nonce: nat): (r: Result<string>)
    ensures r.Err? <==> FromHex(privateKey).None?
    ensures r.Ok? ==> FromHex(r.value) == Some(p.ecdsaSign(FromHex(privateKey).value, MessageDigest(p, tx), nonce))
  {
    match FromHex(privateKey)
    case None => Err(ValueError("non-hexadecimal number found in fromhex() arg"))
    case Some(sk) =>
      var sig := p.ecdsaSign(sk, MessageDigest(p, tx), nonce);
      FromHexToHex(sig);
      Ok(ToHex(sig))
  }

  /** `verify_signature(tx, public_key, signature)`: the library's verdict on
      the message digest, where a `BadSignatureError` becomes False. Only text
      that is not hex raises (ValueError). */
  function VerifySignature(p: Primitives, tx: Json, publicKey: string, signature: string): (r: Result<bool>)
    ensures r.Err? <==> FromHex(publicKey).None? || FromHex(signature).None?
    ensures r.Err? ==> r.error.ValueError?
    ensures r.Ok? ==> r.value == p.ecdsaVerify(FromHex(publicKey).value, FromHex(signature).value, MessageDigest(p, tx))
  {
    match (FromHex(publicKey), FromHex(signature))
    case (Some(pk), Some(sig)) => Ok(p.ecdsaVerify(pk, sig, MessageDigest(p, tx)))
    case _ => Err(ValueError("non-hexadecimal number found in fromhex() arg"))
  }

  /** Signing then verifying with the matching public key succeeds: both sides
      hash the same message, and the signature text survives the hex round
      trip. */
  lemma SignThenVerify(p: Primitives, tx: Json, sk: Bytes, nonce: nat)
    requires EcdsaComplete(p)
    ensures SignTransaction(p, tx, ToHex(sk), nonce).Ok?
    ensures VerifySignature(p, tx, ToHex(p.publicKeyOf(sk)), SignTransaction(p, tx, ToHex(sk), nonce).value) == Ok(true)
  {
    FromHexToHex(sk);
    FromHexToHex(p.publicKeyOf(sk));
    var sig := p.ecdsaSign(sk, MessageDigest(p, tx), nonce);
    FromHexToHex(sig);
  }

  /** For hex input the verdict is the library's, never an exception: a
      rejected signature gives False. */
  lemma VerifyNeverRaisesOnHex(p: Primitives, tx: Json, pk: Bytes, sig: Bytes)
    ensures VerifySignature(p, tx, ToHex(pk), ToHex(sig)) == Ok(p.ecdsaVerify(pk, sig, MessageDigest(p, tx)))
  {
    FromHexToHex(pk);
    FromHexToHex(sig);
  }

  /** The two-argument `verify_signature(tx, public_key)` calls made by the
      transaction modules, read as intended: the signature is the hex text in
      `tx["signature"]` and the signed message is the transaction without that
      field. A missing field raises KeyError, a non-dict or a non-string
      signature TypeError. */
  function VerifyAttached(p: Primitives, tx: Json, publicKey: string): (r: Result<bool>)
    ensures !tx.JObj? ==> r.Err? && r.error.TypeError?
    ensures tx.JObj? && !HasKey(tx, "signature") ==> r == Err(KeyError("signature"))
    ensures HasKey(tx, "signature") && ToMap(tx.entries)["signature"].JStr? ==>
      r == VerifySignature(p, JObj(Remove(tx.entries, "signature")), publicKey, ToMap(tx.entries)["signature"].s)
  {
    var sig :- Index(tx, "signature");
    if !sig.JStr? then Err(TypeError("fromhex() argument must be str"))
    else VerifySignature(p, JObj(Remove(tx.entries, "signature")), publicKey, sig.s)
  }

  /** A body signed before its `signature` field is added verifies afterwards
      under the signer's public key. */
  lemma AttachedSignatureVerifies(p: Primitives, body: seq<(string, Json)>, sk: Bytes, nonce: nat)
    requires EcdsaComplete(p)
    requires "signature" !in ToMap(body)
    ensures SignTransaction(p, JObj(body), ToHex(sk), nonce).Ok?
    ensures VerifyAttached(p, JObj(Assign(body, "signature", JStr(SignTransaction(p, JObj(body), ToHex(sk), nonce).value))),
                           ToHex(p.publicKeyOf(sk))) == Ok(true)
  {
    SignThenVerify(p, JObj(body), sk, nonce);
    var sig := JStr(SignTransaction(p, JObj(body), ToHex(sk), nonce).value);
    RemoveAssignFresh(body, "signature", sig);
  }

  /** `get_eth_address(public_key)`: "0x" and the last 40 hex digits of the
      Keccak-256 digest of the key bytes, that is the digest's last 20 bytes;
      ValueError for a key that is not hex. */
  function GetEthAddress(p: Primitives, publicKey: string): (r: Result<string>)
    ensures r.Err? <==> FromHex(publicKey).None?
    ensures r.Ok? ==> |r.value| == 42 && r.value[..2] == "0x"
    ensures r.Ok? ==> r.value[2..] == ToHex(p.keccak(FromHex(publicKey).value)[12..])
  {
    match FromHex(publicKey)
    case None => Err(ValueError("non-hexadecimal number found in fromhex() arg"))
    case Some(pk) =>
      var h := ToHex(p.keccak(pk));
      ToHexSuffix(p.keccak(pk), 12);
      assert ("0x" + h[24..])[2..] == h[24..];
      Ok("0x" + h[24..])
  }

  /** Two keys with the same address have digests that agree on their last 20
      bytes. */
  lemma SameAddressSameDigestTail(p: Primitives, k1: string, k2: string)
    requires GetEthAddress(p, k1).Ok? && GetEthAddress(p, k1) == GetEthAddress(p, k2)
    ensures p.keccak(FromHex(k1).value)[12..] == p.keccak(FromHex(k2).value)[12..]
  {
    ToHexInjective(p.keccak(FromHex(k1).value)[12..], p.keccak(FromHex(k2).value)[12..]);
  }

  /** `create_secondary_address(g, h)`: the commitment `g*s + h*r` to two
      secrets drawn below the group order, returned with the secrets. */
  function CreateSecondaryAddress(g: Point, h: Point, s: Point, r: Point): (a: (Point, Point, Point))
    ensures a.1 == s && a.2 == r
    ensures a.0 == (g * s + h * r) % N
  {
    ModAdd(g * s, h * r);
    (Add(Mul(g, s), Mul(h, r)), s, r)
  }

  /** The secondary address is a Pedersen commitment to `s`. With `g = G`,
      it opens as the commitment to `s` with blinding factor `h*r`; with
      `g = h = G` and a nonzero `r`, it is the commitment
      `create_commitment(s, r)` makes. */
  lemma SecondaryAddressIsCommitment(h: Point, s: Point, r: Point, draw: Point)
    ensures Pedersen.VerifyCommitment(CreateSecondaryAddress(G, h, s, r).0, s, h * r)
    ensures r != 0 ==> CreateSecondaryAddress(G, G, s, r).0 == Pedersen.CreateCommitment(s, Some(r), draw).0
  {
  }
}
