/** The cryptographic and serialisation primitives the core calls into, kept
    uninterpreted: each is a field of `Primitives`, and every operation that
    hashes, signs or serialises takes the record as a parameter. Points of
    secp256k1 are represented by their discrete logarithm to the base `G`:
    the group is cyclic of prime order `N`, so `k*G` is the scalar `k mod N`,
    point addition is addition mod `N`, and two points are equal exactly
    when their scalars are. */
module Crypto {
  import opened Base
  import opened Json

  /** The order of secp256k1's generator. */
  const N: nat := 0xFFFF_FFFF_FFFF_FFFF_FFFF_FFFF_FFFF_FFFE_BAAE_DCE6_AF48_A03B_BFD2_5E8C_D036_4141

  /** A curve point, as the scalar `k` with point `k*G`. */
  type Point = k: int | 0 <= k < N

  /** The generator `G`. */
  const G: Point := 1

  /** `pt * k` (scalar multiplication). */
  function Mul(pt: Point, k: int): (r: Point)
  {
    (pt * k) % N
  }

  /** `a + b` (point addition). */
  function Add(a: Point, b: Point): (r: Point)
  {
    (a + b) % N
  }

  datatype Primitives = Primitives(
    /** `hashlib.sha256(data).digest()`. */
    sha256: Bytes -> Digest,
    /** `eth_utils.keccak(data)`. */
    keccak: Bytes -> Digest,
    /** The text `json.dumps` writes for a serialisable value, entries in the
        order given. */
    emit: Json -> string,
    /** The text `json.dumps(value, indent=4)` writes. */
    emitIndented: Json -> string,
    /** Python's `str()` of a value (for a dict, the text `repr` gives). */
    pyStr: Json -> string,
    /** `SigningKey.sign`: private key bytes, message digest and the random
        nonce the library draws. */
    ecdsaSign: (Bytes, Digest, nat) -> Bytes,
    /** `VerifyingKey.verify`: true when it returns True, false when it
        raises `BadSignatureError`. */
    ecdsaVerify: (Bytes, Bytes, Digest) -> bool,
    /** The public key bytes of a private key. */
    publicKeyOf: Bytes -> Bytes,
    /** The affine coordinates `(P.x, P.y)` of a point. */
    affine: Point -> (nat, nat)
  )

  /** ECDSA completeness: a signature made with a private key verifies under
      its public key. */
  ghost predicate EcdsaComplete(p: Primitives)
  {
    forall sk: Bytes, m: Digest, k: nat ::
      p.ecdsaVerify(p.publicKeyOf(sk), p.ecdsaSign(sk, m, k), m)
  }

  /** Adding residues is adding and then reducing. */
  lemma ModAdd(a: int, b: int)
    ensures (a % N + b % N) % N == (a + b) % N
  {
    var qa, qb := a / N, b / N;
    assert a == qa * N + a % N;
    assert b == qb * N + b % N;
    assert a + b == (qa + qb) * N + (a % N + b % N);
    ModShift(a % N + b % N, qa + qb);
  }

  /** Adding a multiple of `N` leaves the residue unchanged. */
  lemma ModShift(x: int, q: int)
    ensures (q * N + x) % N == x % N
  {
  }
}
