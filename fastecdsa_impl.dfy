/** The elliptic-curve range-proof backend
    (verification/bulletproofs/fastecdsa_impl.py): a Pedersen commitment
    `g*amount + h*blinding` and, as the "proof", the SHA-256 digest of a text
    naming the commitment's coordinates and the range. The module hashes with
    `sha256`, which it never imports; the intended `hashlib.sha256` is the
    `sha256` primitive here.

    The source writes the four numbers with no separator between them, so
    different ranges can share one transcript. `AsWritten` is that text and
    `Separated` puts a comma between the fields; the range-proof dispatcher
    uses `Separated`. */
module FastEcdsaImpl {
  import opened Base
  import opened Text
  import opened Crypto
  import Pedersen
  import opened BulletproofsUtils

  /** The separator between the transcript's fields. */
  const AsWritten: string := ""
  const Separated: string := ","

  /** The text hashed into the proof: the commitment's affine `x` and `y`, the
      minimum and the maximum, in decimal, joined by `sep`. */
  function Transcript(p: Primitives, commitment: Point, rangeMin: int, rangeMax: int, sep: string): string
  {
    var (x, y) := p.affine(commitment);
    Decimal(x) + sep + (Decimal(y) + sep + (Decimal(rangeMin) + sep + Decimal(rangeMax)))
  }

  /** The proof for a commitment and a range. */
  function ProofFor(p: Primitives, commitment: Point, rangeMin: int, rangeMax: int, sep: string): Digest
  {
    p.sha256(Utf8(Transcript(p, commitment, rangeMin, rangeMax, sep)))
  }

  /** `g or secp256k1.G`: a point given by the caller, else the generator. */
  function OrGenerator(pt: Option<Point>): Point
  {
    if pt.Some? then pt.value else G
  }

  /** `blinding_factor or secrets.randbelow(q)`: a nonzero factor given by the
      caller, else the random draw. */
  function OrDraw(factor: Option<int>, draw: Point): int
  {
    if factor.Some? && factor.value != 0 then factor.value else draw
  }

  const NotInstalled := ImportError("fastecdsa library is required but not installed.")

  /** `generate_bulletproof(amount, range_min, range_max, g, h,
      blinding_factor)`: ImportError without the library, ValueError outside
      the inclusive range, otherwise the commitment and its proof.
      `available` is the library's presence and `draw` the random factor. */
  function GenerateBulletproof(p: Primitives, available: bool, amount: int, rangeMin: int, rangeMax: int,
                               g: Option<Point>, h: Option<Point>, blinding: Option<int>, draw: Point,
                               sep: string): (r: Result<(Point, Digest)>)
    ensures r.Err? <==> !available || !(rangeMin <= amount <= rangeMax)
    ensures !available ==> r == Err(NotInstalled)
    ensures available && r.Err? ==> r == Err(ValueError("Amount is out of the specified range."))
    ensures r.Ok? ==> r.value.0 == (OrGenerator(g) * amount + OrGenerator(h) * OrDraw(blinding, draw)) % N
    ensures r.Ok? ==> r.value.1 == p.sha256(Utf8(Transcript(p, r.value.0, rangeMin, rangeMax, sep)))
  {
    if !available then Err(NotInstalled)
    else if !(rangeMin <= amount <= rangeMax) then Err(ValueError("Amount is out of the specified range."))
    else
      var gg, hh, b := OrGenerator(g), OrGenerator(h), OrDraw(blinding, draw);
      ModAdd(gg * amount, hh * b);
      var c := Add(Mul(gg, amount), Mul(hh, b));
      Ok((c, ProofFor(p, c, rangeMin, rangeMax, sep)))
  }

  /** `verify_bulletproof(commitment, proof, range_min, range_max, g, h)`:
      ImportError without the library, otherwise whether the proof is the
      digest recomputed from the commitment and the range. The generators are
      defaulted but never used. */
  function VerifyBulletproof(p: Primitives, available: bool, commitment: Point, proof: Bytes, rangeMin: int, rangeMax: int,
                             g: Option<Point>, h: Option<Point>, sep: string): (r: Result<bool>)
    ensures !available ==> r == Err(NotInstalled)
    ensures available ==> r == Ok(proof == p.sha256(Utf8(Transcript(p, commitment, rangeMin, rangeMax, sep))))
  {
    if !available then Err(NotInstalled)
    else Ok(proof == ProofFor(p, commitment, rangeMin, rangeMax, sep))
  }

  /** With both generators defaulted, the commitment is the Pedersen
      commitment of the amount under the same blinding rule. */
  lemma DefaultGeneratorsArePedersen(p: Primitives, amount: int, rangeMin: int, rangeMax: int,
                                     blinding: Option<int>, draw: Point, sep: string)
    requires rangeMin <= amount <= rangeMax
    ensures GenerateBulletproof(p, true, amount, rangeMin, rangeMax, None, None, blinding, draw, sep).Ok?
    ensures GenerateBulletproof(p, true, amount, rangeMin, rangeMax, None, None, blinding, draw, sep).value.0
         == Pedersen.CreateCommitment(amount, blinding, draw).0
  {
  }

  /** Completeness: the generated proof verifies for the generated
      commitment and the same range, whatever generators verification is
      given. */
  lemma GeneratedProofVerifies(p: Primitives, amount: int, rangeMin: int, rangeMax: int,
                               g: Option<Point>, h: Option<Point>, blinding: Option<int>, draw: Point,
                               g': Option<Point>, h': Option<Point>, sep: string)
    requires rangeMin <= amount <= rangeMax
    ensures var r := GenerateBulletproof(p, true, amount, rangeMin, rangeMax, g, h, blinding, draw, sep);
      r.Ok? && VerifyBulletproof(p, true, r.value.0, r.value.1, rangeMin, rangeMax, g', h', sep) == Ok(true)
  {
  }

  /** As written, the ranges [1, 23] and [12, 3] have one transcript. */
  lemma AsWrittenTranscriptCollides(p: Primitives, c: Point)
    ensures Transcript(p, c, 1, 23, AsWritten) == Transcript(p, c, 12, 3, AsWritten)
  {
    assert Decimal(1) == "1" && Decimal(23) == "23" && Decimal(12) == "12" && Decimal(3) == "3";
  }

  /** So a proof generated for an amount in [1, 23] verifies for the range
      [12, 3], which holds no amount at all. */
  lemma AsWrittenAcceptsEmptyRange(p: Primitives, amount: int, g: Option<Point>, h: Option<Point>,
                                   blinding: Option<int>, draw: Point)
    requires 1 <= amount <= 23
    ensures var r := GenerateBulletproof(p, true, amount, 1, 23, g, h, blinding, draw, AsWritten);
      r.Ok? && VerifyBulletproof(p, true, r.value.0, r.value.1, 12, 3, g, h, AsWritten) == Ok(true)
    ensures forall x: int :: !ValidateCommitmentRange(x, 12, 3)
  {
    var r := GenerateBulletproof(p, true, amount, 1, 23, g, h, blinding, draw, AsWritten);
    AsWrittenTranscriptCollides(p, r.value.0);
  }

  /** A decimal field followed by a comma is recovered from the text. */
  lemma SplitDecimal(x: int, r: string, x': int, r': string)
    requires Decimal(x) + "," + r == Decimal(x') + "," + r'
    ensures x == x' && r == r'
  {
    assert ',' !in Decimal(x) && ',' !in Decimal(x');
    SplitAtSeparator(Decimal(x), r, Decimal(x'), r', ',');
    DecimalInjective(x, x');
  }

  /** With separators, the transcript determines the commitment's
      coordinates and both ends of the range. */
  lemma {:induction false} SeparatedTranscriptInjective(p: Primitives, c: Point, a: int, b: int, c': Point, a': int, b': int)
    requires Transcript(p, c, a, b, Separated) == Transcript(p, c', a', b', Separated)
    ensures p.affine(c) == p.affine(c') && a == a' && b == b'
  {
    var (x, y) := p.affine(c);
    var (x', y') := p.affine(c');
    var u, u' := Decimal(a) + "," + Decimal(b), Decimal(a') + "," + Decimal(b');
    SplitDecimal(x, Decimal(y) + "," + u, x', Decimal(y') + "," + u');
    SplitDecimal(y, u, y', u');
    SplitDecimal(a, Decimal(b), a', Decimal(b'));
    DecimalInjective(b, b');
  }

  /** Every transcript is ASCII text. */
  lemma TranscriptAscii(p: Primitives, c: Point, a: int, b: int)
    ensures forall i | 0 <= i < |Transcript(p, c, a, b, Separated)| :: Transcript(p, c, a, b, Separated)[i] as int < 0x80
  {
    var t := Transcript(p, c, a, b, Separated);
    forall i | 0 <= i < |t| ensures t[i] as int < 0x80 {
      assert IsDigit(t[i]) || t[i] == '-' || t[i] == ',';
    }
  }

  /** With separators, a proof made for one commitment and range is accepted
      for another only through a SHA-256 collision between two different
      transcripts. */
  lemma SeparatedProofBindsRange(p: Primitives, amount: int, rangeMin: int, rangeMax: int,
                                 g: Option<Point>, h: Option<Point>, blinding: Option<int>, draw: Point,
                                 c': Point, rangeMin': int, rangeMax': int)
    requires rangeMin <= amount <= rangeMax
    requires var r := GenerateBulletproof(p, true, amount, rangeMin, rangeMax, g, h, blinding, draw, Separated);
      VerifyBulletproof(p, true, c', r.value.1, rangeMin', rangeMax', g, h, Separated) == Ok(true)
    ensures var c := GenerateBulletproof(p, true, amount, rangeMin, rangeMax, g, h, blinding, draw, Separated).value.0;
      var t, t' := Utf8(Transcript(p, c, rangeMin, rangeMax, Separated)), Utf8(Transcript(p, c', rangeMin', rangeMax', Separated));
      (p.affine(c) == p.affine(c') && rangeMin == rangeMin' && rangeMax == rangeMax')
        || (t != t' && p.sha256(t) == p.sha256(t'))
  {
    var c := GenerateBulletproof(p, true, amount, rangeMin, rangeMax, g, h, blinding, draw, Separated).value.0;
    var s, s' := Transcript(p, c, rangeMin, rangeMax, Separated), Transcript(p, c', rangeMin', rangeMax', Separated);
    if Utf8(s) == Utf8(s') {
      TranscriptAscii(p, c, rangeMin, rangeMax);
      TranscriptAscii(p, c', rangeMin', rangeMax');
      Utf8AsciiInjective(s, s');
      SeparatedTranscriptInjective(p, c, rangeMin, rangeMax, c', rangeMin', rangeMax');
    }
  }
}
