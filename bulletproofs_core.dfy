/** Range-proof backend dispatch
    (verification/bulletproofs/bulletproofs_core.py): the module-level flag
    and the backends' import outcomes select one implementation; there is no
    fallback. */
module BulletproofsCore {
  import opened Base
  import opened Crypto
  import Emulation
  import FastEcdsaImpl

  /** The dispatcher's configuration. `hasDalek` and `hasFastecdsa` record
      whether importing each backend module succeeded; `fastecdsaLib` whether
      the fastecdsa library itself is installed (the backend module loads
      either way and checks this on each call). The dalek backend is a
      foreign library, kept as two function values. */
  datatype Config = Config(
    flag: string,
    hasDalek: bool,
    hasFastecdsa: bool,
    fastecdsaLib: bool,
    dalekGenerate: (int, int, int) -> Bytes,
    dalekVerify: (int, Bytes, int, int) -> bool)

  /** `BULLETPROOF_IMPLEMENTATION = "emulation"`. */
  const DefaultFlag: string := "emulation"

  /** What the selected backend returns from `generate_bulletproof`. */
  datatype Proof =
    | EmulatedProof(challenge: nat)
    | CurveProof(commitment: Point, digest: Digest)
    | DalekProof(bytes: Bytes)

  /** The backends the flag can select. */
  datatype Backend = Dalek | Fastecdsa | Emulated

  /** The backend both entry points dispatch to, or None for the error
      branch. */
  function Selected(cfg: Config): (r: Option<Backend>)
    ensures r == Some(Dalek) <==> cfg.flag == "dalek" && cfg.hasDalek
    ensures r == Some(Fastecdsa) <==> cfg.flag == "fastecdsa" && cfg.hasFastecdsa
    ensures r == Some(Emulated) <==> cfg.flag == "emulation"
  {
    if cfg.flag == "dalek" && cfg.hasDalek then Some(Dalek)
    else if cfg.flag == "fastecdsa" && cfg.hasFastecdsa then Some(Fastecdsa)
    else if cfg.flag == "emulation" then Some(Emulated)
    else None
  }

  const Unsupported := ValueError("Invalid or unsupported Bulletproof implementation selected.")

  /** `generate_bulletproof(commitment, range_min, range_max)`: the selected
      backend's proof, or ValueError when none is selected. The fastecdsa
      backend is taken with the separated transcript, the corrected form of
      the concatenation its code hashes; `draw` is the random blinding it
      would take. */
  function GenerateBulletproof(p: Primitives, cfg: Config, commitment: int, rangeMin: int, rangeMax: int, draw: Point): (r: Result<Proof>)
    ensures Selected(cfg).None? ==> r == Err(Unsupported)
    ensures Selected(cfg) == Some(Emulated) ==>
      r == (match Emulation.GenerateBulletproof(p, commitment, rangeMin, rangeMax, true)
            case Ok(c) => Ok(EmulatedProof(c))
            case Err(e) => Err(e))
    ensures Selected(cfg) == Some(Dalek) ==> r == Ok(DalekProof(cfg.dalekGenerate(commitment, rangeMin, rangeMax)))
    ensures Selected(cfg) == Some(Fastecdsa) ==>
      r == (match FastEcdsaImpl.GenerateBulletproof(p, cfg.fastecdsaLib, commitment, rangeMin, rangeMax, None, None, None, draw, FastEcdsaImpl.Separated)
            case Ok((c, d)) => Ok(CurveProof(c, d))
            case Err(e) => Err(e))
  {
    match Selected(cfg)
    case None => Err(Unsupported)
    case Some(Dalek) => Ok(DalekProof(cfg.dalekGenerate(commitment, rangeMin, rangeMax)))
    case Some(Fastecdsa) =>
      var (c, d) :- FastEcdsaImpl.GenerateBulletproof(p, cfg.fastecdsaLib, commitment, rangeMin, rangeMax, None, None, None, draw, FastEcdsaImpl.Separated);
      Ok(CurveProof(c, d))
    case Some(Emulated) =>
      var c :- Emulation.GenerateBulletproof(p, commitment, rangeMin, rangeMax, true);
      Ok(EmulatedProof(c))
  }

  /** `verify_bulletproof(commitment, proof, range_min, range_max)`: the
      selected backend's verdict, or ValueError when none is selected. The
      emulated backend compares its challenge with the proof, so a proof of
      another kind never matches. The fastecdsa backend reads `commitment.x`,
      which an integer commitment does not have (AttributeError) once the
      library is present. */
  function VerifyBulletproof(p: Primitives, cfg: Config, commitment: int, proof: Proof, rangeMin: int, rangeMax: int): (r: Result<bool>)
    ensures Selected(cfg).None? ==> r == Err(Unsupported)
    ensures Selected(cfg) == Some(Emulated) ==>
      r == Emulation.VerifyBulletproof(p, commitment, if proof.EmulatedProof? then proof.challenge else -1, rangeMin, rangeMax, true)
    ensures Selected(cfg) == Some(Dalek) ==>
      r == Ok(proof.DalekProof? && cfg.dalekVerify(commitment, proof.bytes, rangeMin, rangeMax))
    ensures Selected(cfg) == Some(Fastecdsa) ==>
      r == if cfg.fastecdsaLib then Err(AttributeError("x")) else Err(FastEcdsaImpl.NotInstalled)
  {
    match Selected(cfg)
    case None => Err(Unsupported)
    case Some(Dalek) => Ok(proof.DalekProof? && cfg.dalekVerify(commitment, proof.bytes, rangeMin, rangeMax))
    case Some(Fastecdsa) =>
      if cfg.fastecdsaLib then Err(AttributeError("x")) else Err(FastEcdsaImpl.NotInstalled)
    case Some(Emulated) =>
      // A challenge is never negative, so -1 stands for a proof of another kind.
      Emulation.VerifyBulletproof(p, commitment, if proof.EmulatedProof? then proof.challenge else -1, rangeMin, rangeMax, true)
  }

  /** Under the default flag the emulated backend answers, for every
      commitment and range. */
  lemma DefaultIsEmulation(p: Primitives, cfg: Config, commitment: int, rangeMin: int, rangeMax: int, draw: Point)
    requires cfg.flag == DefaultFlag
    ensures Selected(cfg) == Some(Emulated)
    ensures GenerateBulletproof(p, cfg, commitment, rangeMin, rangeMax, draw).Err?
        <==> !(rangeMin <= commitment <= rangeMax)
  {
  }

  /** An unavailable dalek backend is an error, not a fallback to emulation;
      so is any flag outside the three names. */
  lemma NoFallback(p: Primitives, cfg: Config, commitment: int, proof: Proof, rangeMin: int, rangeMax: int, draw: Point)
    requires (cfg.flag == "dalek" && !cfg.hasDalek) || (cfg.flag == "fastecdsa" && !cfg.hasFastecdsa)
          || (cfg.flag != "dalek" && cfg.flag != "fastecdsa" && cfg.flag != "emulation")
    ensures GenerateBulletproof(p, cfg, commitment, rangeMin, rangeMax, draw) == Err(Unsupported)
    ensures VerifyBulletproof(p, cfg, commitment, proof, rangeMin, rangeMax) == Err(Unsupported)
  {
  }

  /** Both entry points fail together on configuration: generate reports an
      unsupported backend exactly when verify does. */
  lemma SameBackend(p: Primitives, cfg: Config, commitment: int, proof: Proof, rangeMin: int, rangeMax: int, draw: Point)
    ensures GenerateBulletproof(p, cfg, commitment, rangeMin, rangeMax, draw) == Err(Unsupported)
        <==> VerifyBulletproof(p, cfg, commitment, proof, rangeMin, rangeMax) == Err(Unsupported)
  {
    if Selected(cfg) == Some(Emulated) {
      assert Emulation.OutOfRange != Unsupported;
    }
  }

  /** With the emulated backend, a generated proof verifies. */
  lemma EmulatedRoundTrip(p: Primitives, cfg: Config, commitment: int, rangeMin: int, rangeMax: int, draw: Point)
    requires Selected(cfg) == Some(Emulated) && rangeMin <= commitment <= rangeMax
    ensures GenerateBulletproof(p, cfg, commitment, rangeMin, rangeMax, draw).Ok?
    ensures VerifyBulletproof(p, cfg, commitment, GenerateBulletproof(p, cfg, commitment, rangeMin, rangeMax, draw).value,
                              rangeMin, rangeMax) == Ok(true)
  {
    Emulation.GeneratedProofVerifies(p, commitment, rangeMin, rangeMax, true);
  }
}
