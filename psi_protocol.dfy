/** Private set intersection (verification/psi_protocol.py). Paillier
    encryption, Schnorr signing and Schnorr verification are uninterpreted;
    key generation and the randomness of encryption and signing are
    parameters. */
module PsiProtocol {
  import opened Base
  import opened Json
  import opened Crypto

  /** The PSI primitives: `paillier_public_key.encrypt(item)` (public key,
      item, random nonce) for an item it can encode, naming the ciphertext
      object it returns, the `max_int` bound of a
      Paillier public key, `schnorr_sign(message, private_key)` (message,
      private key, random nonce) returning `(r, s)`, and
      `schnorr_verify(message, r, s, public_key)`. */
  datatype PsiPrimitives = PsiPrimitives(
    paillierEncrypt: (Json, int, nat) -> string,
    paillierMaxInt: Json -> nat,
    schnorrSign: (string, Json, nat) -> (Json, Json),
    schnorrVerify: (string, Json, Json, Json) -> bool)

  /** An initialised `PSIScheme`: its type and the keys `__init__` generated. */
  datatype Scheme =
    | Paillier(publicKey: Json, privateKey: Json)
    | Schnorr(signingKey: Json, verifyingKey: Json)

  /** `PSIScheme(scheme_type)`: "paillier" keeps a fresh Paillier key pair,
      "schnorr" (the default) a fresh Schnorr key pair, anything else raises
      ValueError. The freshly generated pairs are supplied by the caller. */
  function Init(schemeType: string, paillierKeys: (Json, Json), schnorrKeys: (Json, Json)): (r: Result<Scheme>)
    ensures r.Ok? <==> schemeType == "paillier" || schemeType == "schnorr"
    ensures schemeType == "paillier" ==> r == Ok(Paillier(paillierKeys.0, paillierKeys.1))
    ensures schemeType == "schnorr" ==> r == Ok(Schnorr(schnorrKeys.0, schnorrKeys.1))
    ensures r.Err? ==> r.error.ValueError?
  {
    if schemeType == "paillier" then Ok(Paillier(paillierKeys.0, paillierKeys.1))
    else if schemeType == "schnorr" then Ok(Schnorr(schnorrKeys.0, schnorrKeys.1))
    else Err(ValueError("Unsupported PSI scheme type. Use 'paillier' or 'schnorr'."))
  }

  /** What `phe`'s number encoding raises for a value that is neither an int
      nor a float. */
  const NotEncodable := TypeError("Don't know the precision of type")

  /** The encryption of one item: a Paillier ciphertext of an integer item
      (a bool is the int 0 or 1) within `max_int` in absolute value, an
      `EncryptedNumber` object and so an opaque value here, or the
      Schnorr signature pair `(r, s)` on `str(item)`. Paillier encryption
      raises TypeError for any other kind of value and ValueError for an
      integer out of bounds. */
  function EncryptItem(p: Primitives, pp: PsiPrimitives, scheme: Scheme, item: Json, nonce: nat): (r: Result<Json>)
    ensures scheme.Schnorr? ==> r.Ok? && r.value.JArr? && |r.value.items| == 2
    ensures scheme.Paillier? && !item.JInt? && !item.JBool? ==> r == Err(NotEncodable)
    ensures scheme.Paillier? && item.JInt? ==>
      (r.Ok? <==> -(pp.paillierMaxInt(scheme.publicKey) as int) <= item.i <= pp.paillierMaxInt(scheme.publicKey))
    ensures scheme.Paillier? && item.JInt? && r.Ok? ==> r.value == JOpaque(pp.paillierEncrypt(scheme.publicKey, item.i, nonce))
    ensures scheme.Paillier? && item.JBool? ==> r == Ok(JOpaque(pp.paillierEncrypt(scheme.publicKey, if item.b then 1 else 0, nonce)))
    ensures scheme.Paillier? && r.Ok? ==> r.value.JOpaque?
    ensures r.Err? ==> scheme.Paillier? && (r.error.TypeError? || r.error.ValueError?)
  {
    match scheme
    case Paillier(pub, _) =>
      var max: int := pp.paillierMaxInt(pub);
      if item.JBool? then Ok(JOpaque(pp.paillierEncrypt(pub, if item.b then 1 else 0, nonce)))
      else if !item.JInt? then Err(NotEncodable)
      else if item.i < -max || item.i > max then Err(ValueError("Integer needs to be within +/- max_int"))
      else Ok(JOpaque(pp.paillierEncrypt(pub, item.i, nonce)))
    case Schnorr(sk, _) =>
      var (r, s) := pp.schnorrSign(p.pyStr(item), sk, nonce);
      Ok(JArr([r, s]))
  }

  /** The error of the first item, from position `k` of the randomness on,
      whose encryption fails, every earlier item encrypting. */
  predicate FirstFailure(p: Primitives, pp: PsiPrimitives, scheme: Scheme, data: seq<Json>, nonces: int -> nat, k: nat,
                         i: int, e: Error)
  {
    && 0 <= i < |data|
    && EncryptItem(p, pp, scheme, data[i], nonces(k + i)) == Err(e)
    && forall j | 0 <= j < i :: EncryptItem(p, pp, scheme, data[j], nonces(k + j)).Ok?
  }

  /** `encrypt_set(data_set)`: each item encrypted on its own, in order;
      `nonces(i)` is the randomness drawn for the item at position `i`. The
      comprehension raises the error of the first item that cannot be
      encrypted. */
  function EncryptSet(p: Primitives, pp: PsiPrimitives, scheme: Scheme, data: seq<Json>, nonces: int -> nat): (r: Result<seq<Json>>)
    ensures r.Ok? <==> forall i | 0 <= i < |data| :: EncryptItem(p, pp, scheme, data[i], nonces(i)).Ok?
    ensures r.Ok? ==> |r.value| == |data|
    ensures r.Ok? ==> forall i | 0 <= i < |data| :: r.value[i] == EncryptItem(p, pp, scheme, data[i], nonces(i)).value
    ensures r.Err? ==> exists i :: FirstFailure(p, pp, scheme, data, nonces, 0, i, r.error)
  {
    var r := EncryptFrom(p, pp, scheme, data, nonces, 0);
    EncryptedItems(p, pp, scheme, data, nonces, 0);
    EncryptedValues(p, pp, scheme, data, nonces, 0);
    EncryptFailure(p, pp, scheme, data, nonces, 0);
    assert forall i | 0 <= i < |data| :: nonces(0 + i) == nonces(i);
    r
  }

  /** The comprehension from the item drawing randomness `nonces(k)` on. */
  function EncryptFrom(p: Primitives, pp: PsiPrimitives, scheme: Scheme, data: seq<Json>, nonces: int -> nat, k: nat)
    : (r: Result<seq<Json>>)
    ensures r.Ok? ==> |r.value| == |data|
    decreases |data|
  {
    if data == [] then Ok([])
    else
      var c :- EncryptItem(p, pp, scheme, data[0], nonces(k));
      var rest :- EncryptFrom(p, pp, scheme, data[1..], nonces, k + 1);
      Ok([c] + rest)
  }

  /** The comprehension succeeds iff every item encrypts, item `i` with
      randomness `nonces(k + i)`. */
  lemma {:induction false} EncryptedItems(p: Primitives, pp: PsiPrimitives, scheme: Scheme, data: seq<Json>, nonces: int -> nat, k: nat)
    ensures EncryptFrom(p, pp, scheme, data, nonces, k).Ok?
        <==> forall i | 0 <= i < |data| :: EncryptItem(p, pp, scheme, data[i], nonces(k + i)).Ok?
    decreases |data|
  {
    if data != [] {
      var c := EncryptItem(p, pp, scheme, data[0], nonces(k));
      if c.Err? {
        assert k + 0 == k;
      } else {
        EncryptedItems(p, pp, scheme, data[1..], nonces, k + 1);
        assert forall i | 0 < i < |data| :: data[i] == data[1..][i - 1] && k + i == (k + 1) + (i - 1);
      }
    }
  }

  /** A successful comprehension holds the encryption of item `i` with
      randomness `nonces(k + i)` at position `i`. */
  lemma {:induction false} EncryptedValues(p: Primitives, pp: PsiPrimitives, scheme: Scheme, data: seq<Json>, nonces: int -> nat, k: nat)
    ensures var r := EncryptFrom(p, pp, scheme, data, nonces, k);
      r.Ok? ==> forall i | 0 <= i < |data| ::
        EncryptItem(p, pp, scheme, data[i], nonces(k + i)).Ok? && r.value[i] == EncryptItem(p, pp, scheme, data[i], nonces(k + i)).value
    decreases |data|
  {
    if data != [] {
      var c := EncryptItem(p, pp, scheme, data[0], nonces(k));
      EncryptedValues(p, pp, scheme, data[1..], nonces, k + 1);
      var rest := EncryptFrom(p, pp, scheme, data[1..], nonces, k + 1);
      if c.Ok? && rest.Ok? {
        assert EncryptFrom(p, pp, scheme, data, nonces, k).value == [c.value] + rest.value;
        assert k + 0 == k;
        assert forall i | 0 < i < |data| :: data[i] == data[1..][i - 1] && k + i == (k + 1) + (i - 1);
      }
    }
  }

  /** A failing comprehension raises the error of its first failing item. */
  lemma {:induction false} EncryptFailure(p: Primitives, pp: PsiPrimitives, scheme: Scheme, data: seq<Json>, nonces: int -> nat, k: nat)
    ensures var r := EncryptFrom(p, pp, scheme, data, nonces, k);
      r.Err? ==> exists i :: FirstFailure(p, pp, scheme, data, nonces, k, i, r.error)
    decreases |data|
  {
    if data != [] {
      var r := EncryptFrom(p, pp, scheme, data, nonces, k);
      var c := EncryptItem(p, pp, scheme, data[0], nonces(k));
      if c.Err? {
        assert k + 0 == k;
        assert FirstFailure(p, pp, scheme, data, nonces, k, 0, r.error);
      } else {
        EncryptFailure(p, pp, scheme, data[1..], nonces, k + 1);
        var rest := EncryptFrom(p, pp, scheme, data[1..], nonces, k + 1);
        if rest.Err? {
          var i' :| FirstFailure(p, pp, scheme, data[1..], nonces, k + 1, i', rest.error);
          assert forall j | 0 < j <= i' :: data[j] == data[1..][j - 1] && k + j == (k + 1) + (j - 1);
          assert FirstFailure(p, pp, scheme, data, nonces, k, i' + 1, r.error);
        }
      }
    }
  }

  /** Encrypting a concatenation encrypts the parts, the second part drawing
      randomness from where the first part stopped; the first part's error
      comes first. */
  lemma {:induction false} EncryptSetAppend(p: Primitives, pp: PsiPrimitives, scheme: Scheme, a: seq<Json>, b: seq<Json>,
                                            nonces: int -> nat, k: nat)
    ensures var ra := EncryptFrom(p, pp, scheme, a, nonces, k);
            var rb := EncryptFrom(p, pp, scheme, b, nonces, k + |a|);
      EncryptFrom(p, pp, scheme, a + b, nonces, k)
        == if ra.Err? then ra else if rb.Err? then rb else Ok(ra.value + rb.value)
    decreases |a|
  {
    if a == [] {
      assert a + b == b;
      var rb := EncryptFrom(p, pp, scheme, b, nonces, k);
      if rb.Ok? {
        assert [] + rb.value == rb.value;
      }
    } else {
      assert (a + b)[0] == a[0];
      assert (a + b)[1..] == a[1..] + b;
      EncryptSetAppend(p, pp, scheme, a[1..], b, nonces, k + 1);
      var ra := EncryptFrom(p, pp, scheme, a, nonces, k);
      var rb := EncryptFrom(p, pp, scheme, b, nonces, k + |a|);
      var c := EncryptItem(p, pp, scheme, a[0], nonces(k));
      if c.Ok? {
        var ra' := EncryptFrom(p, pp, scheme, a[1..], nonces, k + 1);
        if ra'.Ok? && rb.Ok? {
          assert [c.value] + (ra'.value + rb.value) == ([c.value] + ra'.value) + rb.value;
        }
      }
    }
  }

  /** Under Paillier a list whose first item is not a number, such as an
      address string, cannot be encrypted: `encrypt_set` raises TypeError. */
  lemma PaillierRejectsNonNumber(p: Primitives, pp: PsiPrimitives, scheme: Scheme, data: seq<Json>, nonces: int -> nat)
    requires scheme.Paillier? && data != [] && !data[0].JInt? && !data[0].JBool?
    ensures EncryptSet(p, pp, scheme, data, nonces) == Err(NotEncodable)
  {
    assert nonces(0) == nonces(0 + 0);
  }

  /** Every item of a Paillier-encrypted list is a ciphertext object. */
  lemma PaillierCiphertexts(p: Primitives, pp: PsiPrimitives, scheme: Scheme, data: seq<Json>, nonces: int -> nat)
    requires scheme.Paillier? && EncryptSet(p, pp, scheme, data, nonces).Ok?
    ensures var enc := EncryptSet(p, pp, scheme, data, nonces).value;
      forall i | 0 <= i < |enc| :: enc[i].JOpaque?
  {
  }

  /** Under Schnorr every list can be encrypted. */
  lemma SchnorrEncryptsEverything(p: Primitives, pp: PsiPrimitives, scheme: Scheme, data: seq<Json>, nonces: int -> nat)
    requires scheme.Schnorr?
    ensures EncryptSet(p, pp, scheme, data, nonces).Ok?
  {
    assert forall i | 0 <= i < |data| :: EncryptItem(p, pp, scheme, data[i], nonces(i)).Ok?;
  }

  /** Python's `x, y = value` for a two-element target: a list or tuple of
      two, a string of two characters or a dict with two keys unpack;
      another size raises ValueError, a value that cannot be iterated
      TypeError. */
  function Unpack2(j: Json): (r: Result<(Json, Json)>)
    ensures r.Ok? && j.JArr? ==> j.items == [r.value.0, r.value.1]
  {
    match j
    case JArr(items) =>
      if |items| == 2 then Ok((items[0], items[1])) else Err(ValueError("wrong number of values to unpack"))
    case JStr(s) =>
      if |s| == 2 then Ok((JStr([s[0]]), JStr([s[1]]))) else Err(ValueError("wrong number of values to unpack"))
    case JObj(e) =>
      if |e| == 2 then Ok((JStr(e[0].0), JStr(e[1].0))) else Err(ValueError("wrong number of values to unpack"))
    case _ => Err(TypeError("cannot unpack non-iterable object"))
  }

  /** Some reference signature, taken in order, verifies `str(r)`; the first
      reference that does not unpack raises. This is what the loop in
      `verify_item` computes. */
  function RefMatches(p: Primitives, pp: PsiPrimitives, pub: Json, r: Json, refs: seq<Json>): (res: Result<bool>)
  {
    if refs == [] then Ok(false)
    else
      var (refR, refS) :- Unpack2(refs[0]);
      if pp.schnorrVerify(p.pyStr(r), refR, refS, pub) then Ok(true)
      else RefMatches(p, pp, pub, r, refs[1..])
  }

  /** A signature pair `(r, s)`. */
  predicate IsPair(j: Json)
  {
    j.JArr? && |j.items| == 2
  }

  /** Some reference is a signature pair that verifies `str(r)`. */
  predicate SomeRefVerifies(p: Primitives, pp: PsiPrimitives, pub: Json, r: Json, refs: seq<Json>)
  {
    exists i | 0 <= i < |refs| :: IsPair(refs[i]) && pp.schnorrVerify(p.pyStr(r), refs[i].items[0], refs[i].items[1], pub)
  }

  /** For references that are all signature pairs, the item matches iff some
      reference's signature verifies its `r`. */
  lemma {:induction false} RefMatchesExists(p: Primitives, pp: PsiPrimitives, pub: Json, r: Json, refs: seq<Json>)
    requires forall i | 0 <= i < |refs| :: IsPair(refs[i])
    ensures RefMatches(p, pp, pub, r, refs)
         == Ok(SomeRefVerifies(p, pp, pub, r, refs))
  {
    if refs != [] {
      RefMatchesExists(p, pp, pub, r, refs[1..]);
      assert forall i | 1 <= i < |refs| :: refs[1..][i - 1] == refs[i];
    }
  }

  /** What `verify_item` computes, as a function: unpack the item, then
      match its `r` against the references. */
  function ItemMatches(p: Primitives, pp: PsiPrimitives, pub: Json, item: Json, refs: seq<Json>): Result<bool>
  {
    var (r, _) :- Unpack2(item);
    RefMatches(p, pp, pub, r, refs)
  }

  /** `verify_item(item, reference_set)`: unpack the item as `(r, s)`, then
      scan the references, returning True at the first whose signature
      verifies `str(r)`. */
  method VerifyItem(p: Primitives, pp: PsiPrimitives, pub: Json, item: Json, refs: seq<Json>) returns (res: Result<bool>)
    ensures res == ItemMatches(p, pp, pub, item, refs)
  {
    var pair := Unpack2(item);
    if pair.Err? {
      return Err(pair.error);
    }
    var r := pair.value.0;
    var i := 0;
    while i < |refs|
      invariant 0 <= i <= |refs|
      invariant RefMatches(p, pp, pub, r, refs) == RefMatches(p, pp, pub, r, refs[i..])
    {
      assert refs[i..][1..] == refs[i + 1..];
      var ref := Unpack2(refs[i]);
      if ref.Err? {
        return Err(ref.error);
      }
      var (refR, refS) := ref.value;
      if pp.schnorrVerify(p.pyStr(r), refR, refS, pub) {
        return Ok(true);
      }
      i := i + 1;
    }
    return Ok(false);
  }

  /** The items of `s` that satisfy `keep`, in order, duplicates kept. */
  function Filter(s: seq<Json>, keep: Json -> bool): (r: seq<Json>)
    ensures |r| <= |s|
    ensures forall x | x in r :: x in s && keep(x)
  {
    if s == [] then [] else (if keep(s[0]) then [s[0]] else []) + Filter(s[1..], keep)
  }

  /** The filter keeps every occurrence of a kept value and none of the
      others. */
  lemma {:induction false} FilterCount(s: seq<Json>, keep: Json -> bool, x: Json)
    ensures multiset(Filter(s, keep))[x] == if keep(x) then multiset(s)[x] else 0
  {
    if s != [] {
      FilterCount(s[1..], keep, x);
      assert s == [s[0]] + s[1..];
    }
  }

  /** The Schnorr intersection: items in order, each kept when it matches a
      reference; the first item or reference that does not unpack raises. */
  function SchnorrIntersection(p: Primitives, pp: PsiPrimitives, pub: Json, items: seq<Json>, refs: seq<Json>): Result<seq<Json>>
  {
    if items == [] then Ok([])
    else
      var keep :- ItemMatches(p, pp, pub, items[0], refs);
      var rest :- SchnorrIntersection(p, pp, pub, items[1..], refs);
      Ok(if keep then [items[0]] + rest else rest)
  }

  /** `compute_intersection(encrypted_set, reference_set)`: under Paillier
      the items that are members of the reference list, under Schnorr the
      items `verify_item` accepts. */
  function ComputeIntersection(p: Primitives, pp: PsiPrimitives, scheme: Scheme, items: seq<Json>, refs: seq<Json>): (r: Result<seq<Json>>)
    ensures scheme.Paillier? ==> r == Ok(Filter(items, x => x in refs))
    ensures scheme.Schnorr? ==> r == SchnorrIntersection(p, pp, scheme.verifyingKey, items, refs)
  {
    match scheme
    case Paillier(_, _) => Ok(Filter(items, x => x in refs))
    case Schnorr(_, pub) => SchnorrIntersection(p, pp, pub, items, refs)
  }

  /** Whether some reference's signature verifies the item's `r`. */
  predicate Verified(p: Primitives, pp: PsiPrimitives, pub: Json, refs: seq<Json>, item: Json)
    requires IsPair(item)
  {
    SomeRefVerifies(p, pp, pub, item.items[0], refs)
  }

  /** With well-formed items and references the Schnorr intersection never
      raises and is the filter of the items by `Verified`. */
  lemma {:induction false} SchnorrIntersectionFilter(p: Primitives, pp: PsiPrimitives, pub: Json, items: seq<Json>, refs: seq<Json>,
                                                     keep: Json -> bool)
    requires forall i | 0 <= i < |items| :: IsPair(items[i])
    requires forall i | 0 <= i < |refs| :: IsPair(refs[i])
    requires forall x :: keep(x) == (IsPair(x) && Verified(p, pp, pub, refs, x))
    ensures SchnorrIntersection(p, pp, pub, items, refs) == Ok(Filter(items, keep))
  {
    if items != [] {
      RefMatchesExists(p, pp, pub, items[0].items[0], refs);
      assert ItemMatches(p, pp, pub, items[0], refs) == Ok(keep(items[0]));
      SchnorrIntersectionFilter(p, pp, pub, items[1..], refs, keep);
      assert [] + Filter(items[1..], keep) == Filter(items[1..], keep);
    }
  }

  /** An empty reference list gives an empty Paillier intersection, and a
      Schnorr intersection that is empty whenever the items unpack. */
  lemma {:induction false} EmptyReferenceEmptyIntersection(p: Primitives, pp: PsiPrimitives, scheme: Scheme, items: seq<Json>)
    ensures var r := ComputeIntersection(p, pp, scheme, items, []); r.Ok? ==> r.value == []
    ensures scheme.Paillier? ==> ComputeIntersection(p, pp, scheme, items, []) == Ok([])
  {
    var keep := (x: Json) => x in [];
    FilterNone(items, keep);
    if scheme.Schnorr? {
      SchnorrEmpty(p, pp, scheme.verifyingKey, items);
    }
  }

  lemma {:induction false} FilterNone(s: seq<Json>, keep: Json -> bool)
    requires forall x | x in s :: !keep(x)
    ensures Filter(s, keep) == []
  {
    if s != [] {
      FilterNone(s[1..], keep);
    }
  }

  lemma {:induction false} SchnorrEmpty(p: Primitives, pp: PsiPrimitives, pub: Json, items: seq<Json>)
    ensures var r := SchnorrIntersection(p, pp, pub, items, []); r.Ok? ==> r.value == []
  {
    if items != [] {
      SchnorrEmpty(p, pp, pub, items[1..]);
    }
  }

  /** Paillier: an item is kept iff it is a member of the references, and a
      kept item keeps all its duplicates. */
  lemma PaillierMembership(p: Primitives, pp: PsiPrimitives, scheme: Scheme, items: seq<Json>, refs: seq<Json>, x: Json)
    requires scheme.Paillier?
    ensures multiset(ComputeIntersection(p, pp, scheme, items, refs).value)[x]
         == if x in refs then multiset(items)[x] else 0
  {
    FilterCount(items, y => y in refs, x);
  }

  /** Under Paillier a ciphertext equals no plain value, so items that are
      not ciphertexts meet no reference list of ciphertexts: the
      intersection is empty. */
  lemma PaillierNoPlainMatches(p: Primitives, pp: PsiPrimitives, scheme: Scheme, items: seq<Json>, refs: seq<Json>)
    requires scheme.Paillier?
    requires forall i | 0 <= i < |refs| :: refs[i].JOpaque?
    requires forall i | 0 <= i < |items| :: !items[i].JOpaque?
    ensures ComputeIntersection(p, pp, scheme, items, refs) == Ok([])
  {
    var keep := (x: Json) => x in refs;
    forall x | x in items ensures !keep(x) {
      assert !x.JOpaque?;
    }
    FilterNone(items, keep);
  }

  /** The intersection the Paillier branch evidently intends: the items
      equal to the plaintext of some reference, `plain` being the list that
      was encrypted. */
  function PlainIntersection(items: seq<Json>, plain: seq<Json>): (r: seq<Json>)
    ensures forall x :: multiset(r)[x] == if x in plain then multiset(items)[x] else 0
  {
    var keep := (x: Json) => x in plain;
    forall x ensures multiset(Filter(items, keep))[x] == if x in plain then multiset(items)[x] else 0 {
      FilterCount(items, keep, x);
    }
    Filter(items, keep)
  }
}
