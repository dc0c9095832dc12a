/** The emulated range-proof backend (verification/bulletproofs/emulation.py).
    Its range guard is `validate_commitment_range`: the `check_range` it
    imports is not defined anywhere in the repository. */
module Emulation {
  import opened Base
  import opened Text
  import opened Crypto
  import opened BulletproofsUtils

  /** The text hashed into the proof: `"{commitment}-{min}-{max}-{status}"`. */
  function Transcript(commitment: int, rangeMin: int, rangeMax: int, correct: bool): string
  {
    Decimal(commitment) + "-" + (Decimal(rangeMin) + "-" + (Decimal(rangeMax) + "-" + Status(correct)))
  }

  function Status(correct: bool): string
  {
    if correct then "valid" else "invalid"
  }

  const OutOfRange := ValueError("Commitment is out of the specified range.")

  /** `generate_bulletproof(commitment, range_min, range_max, simulate_correct)`:
      ValueError outside the inclusive range, otherwise the 256-bit challenge
      of the transcript. */
  function GenerateBulletproof(p: Primitives, commitment: int, rangeMin: int, rangeMax: int, simulateCorrect: bool): (r: Result<nat>)
    ensures r.Err? <==> !(rangeMin <= commitment <= rangeMax)
    ensures r.Err? ==> r.error == OutOfRange
    ensures r.Ok? ==> r.value == ComputeChallenge(p, Transcript(commitment, rangeMin, rangeMax, simulateCorrect), 256)
    ensures r.Ok? ==> r.value < Pow(2, 256)
  {
    if !ValidateCommitmentRange(commitment, rangeMin, rangeMax) then Err(OutOfRange)
    else Ok(ComputeChallenge(p, Transcript(commitment, rangeMin, rangeMax, simulateCorrect), 256))
  }

  /** `verify_bulletproof(commitment, proof, range_min, range_max,
      expected_correct)`: regenerate the proof and compare. The regeneration
      raises for an out-of-range commitment, so verification does too. */
  function VerifyBulletproof(p: Primitives, commitment: int, proof: int, rangeMin: int, rangeMax: int, expectedCorrect: bool): (r: Result<bool>)
    ensures r.Err? <==> !(rangeMin <= commitment <= rangeMax)
    ensures r.Err? ==> r.error == OutOfRange
    ensures r.Ok? ==> (r.value <==> proof == ComputeChallenge(p, Transcript(commitment, rangeMin, rangeMax, expectedCorrect), 256))
  {
    var correct :- GenerateBulletproof(p, commitment, rangeMin, rangeMax, expectedCorrect);
    Ok(proof == correct)
  }

  /** Completeness: a proof generated for an in-range commitment verifies
      with the same range and status. */
  lemma GeneratedProofVerifies(p: Primitives, commitment: int, rangeMin: int, rangeMax: int, status: bool)
    requires rangeMin <= commitment <= rangeMax
    ensures GenerateBulletproof(p, commitment, rangeMin, rangeMax, status).Ok?
    ensures VerifyBulletproof(p, commitment, GenerateBulletproof(p, commitment, rangeMin, rangeMax, status).value,
                              rangeMin, rangeMax, status) == Ok(true)
  {
  }

  /** Verification holds exactly for the proof generation would return. */
  lemma VerifyMatchesGenerate(p: Primitives, commitment: int, proof: int, rangeMin: int, rangeMax: int, status: bool)
    requires rangeMin <= commitment <= rangeMax
    ensures VerifyBulletproof(p, commitment, proof, rangeMin, rangeMax, status)
         == Ok(proof == GenerateBulletproof(p, commitment, rangeMin, rangeMax, status).value)
  {
  }

  /** The transcript names the commitment, the range and the status
      unambiguously: the `-` separators cannot be confused with a sign,
      because a sign only ever starts a field. */
  lemma {:induction false} TranscriptInjective(c: int, a: int, b: int, s: bool, c': int, a': int, b': int, s': bool)
    requires Transcript(c, a, b, s) == Transcript(c', a', b', s')
    ensures c == c' && a == a' && b == b' && s == s'
  {
    var u, u' := Decimal(b) + "-" + Status(s), Decimal(b') + "-" + Status(s');
    SplitSigned(c, Decimal(a) + "-" + u, c', Decimal(a') + "-" + u');
    SplitSigned(a, u, a', u');
    SplitSigned(b, Status(s), b', Status(s'));
  }

  /** A signed decimal followed by `-` is recovered from the text. */
  lemma SplitSigned(x: int, r: string, x': int, r': string)
    requires Decimal(x) + "-" + r == Decimal(x') + "-" + r'
    ensures x == x' && r == r'
  {
    var d, d' := Decimal(x), Decimal(x');
    var s := d + "-" + r;
    assert s[0] == d[0] && s[0] == d'[0];
    var h, h' := d[1..], d'[1..];
    assert forall k | 0 <= k < |h| :: h[k] == d[k + 1];
    assert forall k | 0 <= k < |h'| :: h'[k] == d'[k + 1];
    assert '-' !in h && '-' !in h';
    assert s[1..] == h + ['-'] + r;
    assert s[1..] == h' + ['-'] + r';
    SplitAtSeparator(h, r, h', r', '-');
    assert d == [d[0]] + h && d' == [d'[0]] + h';
    DecimalInjective(x, x');
  }
}
