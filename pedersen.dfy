/** Pedersen commitments (encryption/pedersen_commitment.py). Both terms of
    the commitment use the generator `G`, so with points read as scalars mod
    `N` a commitment is `(value + factor) mod N`. */
module Pedersen {
  import opened Base
  import opened Crypto

  /** `generate_random()`: the scalar `secrets.randbelow(n)` draws, supplied
      by the caller; it is below the group order. */
  function GenerateRandom(draw: Point): (r: int)
    ensures 0 <= r < N && r == draw
  {
    draw
  }

  /** `create_commitment(value, random_factor)`: the point `G*value +
      G*factor` and the factor used. A missing or zero factor (Python's `or`)
      is replaced by the random draw. */
  function CreateCommitment(value: int, factor: Option<int>, draw: Point): (r: (Point, int))
    ensures factor.Some? && factor.value != 0 ==> r.1 == factor.value
    ensures factor.None? || factor.value == 0 ==> r.1 == GenerateRandom(draw)
    ensures r.0 == (value + r.1) % N
  {
    var f := if factor.Some? && factor.value != 0 then factor.value else GenerateRandom(draw);
    ModAdd(value, f);
    (Add(Mul(G, value), Mul(G, f)), f)
  }

  /** `verify_commitment(commitment, value, random_factor)`: recompute the
      commitment and compare points. */
  function VerifyCommitment(commitment: Point, value: int, factor: int): (r: bool)
    ensures r <==> commitment == (value + factor) % N
  {
    ModAdd(value, factor);
    commitment == Add(Mul(G, value), Mul(G, factor))
  }

  /** A commitment verifies against the value and factor it was made with. */
  lemma CommitmentOpens(value: int, factor: Option<int>, draw: Point)
    ensures var (c, f) := CreateCommitment(value, factor, draw); VerifyCommitment(c, value, f)
  {
  }

  /** Because both generators are `G`, a commitment opens to every pair with
      the same sum mod `N`, and to no other. */
  lemma CommitmentBindsOnlySum(value: int, factor: int, draw: Point, value': int, factor': int)
    requires factor != 0
    ensures VerifyCommitment(CreateCommitment(value, Some(factor), draw).0, value', factor')
        <==> (value + factor) % N == (value' + factor') % N
  {
  }

  /** Concretely: committing to 1 with factor 2 also opens as 2 with factor 1. */
  lemma SwappedOpening(draw: Point)
    ensures VerifyCommitment(CreateCommitment(1, Some(2), draw).0, 2, 1)
  {
  }
}
