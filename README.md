# DGT-ZK confidential ledger: a verified model of the core

This project models the sequential logic of the DGT-ZK prototype. DGT-ZK is a confidential ledger:

- transactions are signed and stored in an LMDB ledger keyed `family_id`;
- transactions can be anchored in a notary store with a cancellation window;
- transactions are screened for compliance (amount bounds, fixed black- and whitelists, private set intersection);
- transactions carry Pedersen commitments and range proofs produced by one of several backends.

Each Python module of the core becomes a Dafny module of the same name and purpose. The project proves properties of these modules.

Conventions:

- **Errors.** A Python call either returns or raises. It is modelled as `Result<T>`, with the exceptions the code raises or lets through: `ValueError`, `TypeError`, `KeyError`, `AttributeError`, `ImportError`, `OSError`, `OverflowError`.
- **Values and dicts.**
  - Values are the `Json` datatype. Values `json.dumps` refuses (points, ciphertexts) are `JOpaque`.
  - A dict is an association list in insertion order. Dict equality is equality of `ToMap`, except in Paillier membership (see `PsiProtocol.ComputeIntersection` under "## Left out").
  - `sort_keys=True` output is `Canonical`.
- **LMDB.** An LMDB environment is a strictly key-sorted association list, the order its cursor visits entries. `LedgerDB` and `NotaryDB` are classes whose `env` field the methods reassign.
- **Cryptographic primitives.** SHA-256, Keccak-256, JSON text emission, Python `str()` of a value (`pyStr`), ECDSA signing and verification, public-key derivation and affine coordinates are fields of a `Primitives` record of functions. They are passed to every operation that uses them.
- **Curve points.** secp256k1 points are their discrete logarithm mod the group order `N`, so `k*G` is `k mod N`.
- **Clock and randomness.** Clock reads (`now`, formatted `stamp`) and random draws (signing `nonce`, blinding draws, encryption randomness) are parameters.
- **Emulator and flow objects.** These hold transaction dicts by reference and mutate them (`tx["anchored"] = now`). Such a dict is a `PyDict` object, so the ledger storage sees the stamp the notary storage stores.
- **Content hash.** `generate_tx_id` in transactions/transaction_utils.py and `_generate_tx_id` in data/ledger_db.py are the same content hash as `hash_transaction` in data/utils.py, modelled once as `DataUtils.HashTransaction`.

Where the code cannot run as written, the model follows the evident intent:

- `transactions/transaction_flow.py` imports `TransactionAnchor`, which the repository does not define. The flow's anchor component is `TransactionFlow.AnchorStore`, which anchors and cancels by the emulator's rules.
- `save_notary_record` is called without its required `signature` argument (data/transaction.py:79, data/notary_interface.py:42, 58). The model passes `None`.
- data/notary_db.py:68 uses `timedelta` without importing it. The model computes the expiry as intended.
- `verify_signature(tx, public_key)` is called with two arguments though it takes three (transactions/transaction_flow.py:115, transactions/transaction_emulator.py:105, data/transaction.py:109). It is modelled as `Signature.VerifyAttached`: the signature is read from `tx["signature"]` and checked against the dict without that field, which is what was signed.
- data/ledger_db.py:57 reads `tx['TX_FAMILY']`, while every body passed to it carries `tx_family` (transactions/transaction_flow.py:89, data/transaction.py:69). The model reads `tx_family`.
- verification/bulletproofs/fastecdsa_impl.py:88 calls `sha256` without importing it. It is the `hashlib` SHA-256 primitive here.
- verification/transaction_verification.py uses `MAX_TRANSACTION_AMOUNT`, which its constants module does not define. The value from transactions/transaction_constants.py:71, `10**6`, is used.
- verification/bulletproofs/emulation.py imports a `check_range` that does not exist. Its range guard is `validate_commitment_range`.
- `perform_psi_check` is not defined in the repository. It is a boolean-valued parameter of `TransactionVerification.ComplianceCheck`.
- encryption/signature.py:60 and 77 call `.digest()` on the result of `eth_utils.keccak`, which is already the digest bytes and has no such method (AttributeError on every call). The model signs and verifies the digest bytes themselves.
- verification/psi_protocol.py:29 imports `PSI_PAILLIER_KEY_SIZE` and `PSI_SCHNORR_CURVE`, which verification/verification_constants.py does not define. The import fails with ImportError, and so does verification/compliance_verification.py:29, which imports the PSI module. The model builds the scheme as `__init__` intends, with the generated key pairs as parameters.
- verification/transaction_verification.py:88-89 and transactions/transaction_anchor.py:82-83 call `create_range_proof(amount, min_value=..., max_value=...)` and `validate_range_proof(commitment, proof, min_value=..., max_value=...)`. The wrappers at verification/bulletproofs/range_proof.py:51 and 70 take `g, h, range_min, range_max` instead, so each call raises TypeError. The module also imports `bulletproof_utils`, which does not exist (range_proof.py:47), and `fastecdsa` unconditionally (range_proof.py:44-45). The model reads the calls as intended: the amount itself is the commitment, passed to the `BulletproofsCore` dispatcher over the range `[0, MAX_TRANSACTION_AMOUNT]`.

## Model

| member | source | states |
|---|---|---|
| FormatUtils.ToHex | utils/format_utils.py:53-63 | the hex text has two lowercase hex digits per byte |
| FormatUtils.FromHexToHex | utils/format_utils.py:53-63 | `bytes.fromhex` reads back exactly the bytes `to_hex` wrote |
| FormatUtils.ToHexInjective | utils/format_utils.py:53-63 | two byte strings with the same hex text are equal |
| FormatUtils.ToJson | utils/format_utils.py:29-39 | succeeds exactly for serialisable values, with the emitted text; TypeError otherwise |
| Helpers.IsHexString | utils/helpers.py:26-40 | TypeError exactly for a non-string; for a string, True iff `int(s, 16)` accepts it |
| Helpers.HexDigitsAccepted | utils/helpers.py:26-40 | every nonempty run of hex digits is a hex string |
| Helpers.EmptyRejected | utils/helpers.py:26-40 | the empty string is not a hex string |
| Helpers.ForeignCharRejected | utils/helpers.py:26-40 | a string holding a character outside the whitespace `int()` trims, hex digits, sign, `x` and `_` is not a hex string |
| Helpers.UnicodeSpaceTrimmed | utils/helpers.py:37 | Unicode spaces around the digits (U+3000 before, U+00A0 after `ff`) are trimmed, so the text is a hex string |
| Helpers.SeparatorNotTrimmed | utils/helpers.py:37 | the separator U+001C, whitespace to `str.isspace()`, is not trimmed by `int()`, so `"\x1cff"` is not a hex string |
| Helpers.IsValidAmount | utils/helpers.py:42-52 | true exactly for a non-negative int or a bool |
| Helpers.NegativeIsInvalidAmount | utils/helpers.py:42-52 | a negative int is rejected |
| TimeUtils.CivilValid | utils/time_utils.py:37-47 | the UTC decomposition of a timestamp has every field in range and converts back to the same timestamp |
| TimeUtils.TimestampToIso | utils/time_utils.py:37-47 | fails exactly when the year passes 9999: OverflowError for a timestamp from 2^63 on (beyond a 64-bit `time_t`), OSError when the year exceeds what `gmtime`'s `int` year holds (2^31-1 after 1900), ValueError otherwise |
| TimeUtils.IsoOfEpoch | utils/time_utils.py:37-47 | timestamp 0 prints as `1970-01-01T00:00:00Z` |
| TimeUtils.IsoShape | utils/time_utils.py:37-47 | the text is 20 characters: digits, with `-`, `-`, `T`, `:`, `:`, `Z` at the places of `YYYY-MM-DDTHH:MM:SSZ` |
| TimeUtils.SameTimeNextDay | utils/time_utils.py:37-47 | a timestamp one day later shows the same `HH:MM:SS` |
| TimeUtils.IsoOrderMatchesTime | utils/time_utils.py:37-47 | for representable timestamps, an earlier timestamp gives a text that sorts strictly earlier |
| DataUtils.FormatKey | data/utils.py:33-44 | the key is the family, `_`, then the key, recoverable by position |
| DataUtils.FormatKeyInjective | data/utils.py:33-44 | within a family, distinct keys give distinct store keys |
| DataUtils.HashTransaction | data/utils.py:47-58 | succeeds exactly for serialisable values; the id is 64 hex digits of SHA-256 over the sorted-keys JSON |
| DataUtils.HashIgnoresKeyOrder | data/utils.py:47-58 | two dicts with the same contents, in any insertion order, hash alike |
| DataUtils.ConvertToJson | data/utils.py:61-75 | None exactly when the value cannot be serialised, the indented text otherwise |
| Json.CanonicalIgnoresOrder | data/utils.py:57 | `sort_keys` output does not depend on insertion order |
| Json.CanonicalSorted | data/utils.py:57 | `sort_keys` output lists the keys of a dict in strictly increasing order |
| Signature.SignTransaction | encryption/signature.py:48-62 | ValueError exactly for a private key that is not hex; for a hex key the hex text of the signature over the Keccak-256 digest of `str(tx)` (the library's rejection of malformed keys is left out) |
| Signature.VerifySignature | encryption/signature.py:64-81 | ValueError exactly when the key or the signature is not hex; otherwise the library's verdict on the same digest, a bad signature giving False |
| Signature.SignThenVerify | encryption/signature.py:48-81 | a signature made with a private key verifies under its public key |
| Signature.VerifyNeverRaisesOnHex | encryption/signature.py:76-81 | for hex inputs the result is always a verdict, never an exception |
| Signature.VerifyAttached | encryption/signature.py:64-81 | the two-argument check: TypeError for a non-dict, KeyError without `signature`, otherwise the verdict on the dict without its `signature` field |
| Signature.AttachedSignatureVerifies | encryption/signature.py:48-81 | a body signed before its `signature` field is added verifies afterwards under the signer's public key |
| Signature.GetEthAddress | encryption/signature.py:83-95 | ValueError for a non-hex key; otherwise `0x` and 40 hex digits, the last 20 bytes of the key's Keccak-256 digest |
| Signature.SameAddressSameDigestTail | encryption/signature.py:83-95 | two keys with one address have digests agreeing on their last 20 bytes |
| Signature.CreateSecondaryAddress | encryption/signature.py:97-117 | the address is `g*s + h*r` in the group and the two secrets are returned unchanged |
| Signature.SecondaryAddressIsCommitment | encryption/signature.py:114-115 | with `g = G` the address opens as the Pedersen commitment to `s` with blinding factor `h*r`; with `g = h = G` and `r != 0` it is the point `create_commitment(s, r)` makes |
| Pedersen.GenerateRandom | encryption/pedersen_commitment.py:37-44 | the blinding factor is the caller's `randbelow(n)` draw, below the group order |
| Pedersen.CreateCommitment | encryption/pedersen_commitment.py:47-61 | a given nonzero factor is kept, a missing or zero one is replaced by `generate_random()`'s draw; the commitment is `G*value + G*factor` |
| Pedersen.VerifyCommitment | encryption/pedersen_commitment.py:64-77 | true exactly when the point equals `G*value + G*factor` |
| Pedersen.CommitmentOpens | encryption/pedersen_commitment.py:47-77 | a commitment verifies against the value and factor it was made with |
| Pedersen.CommitmentBindsOnlySum | encryption/pedersen_commitment.py:60-76 | with both terms on `G`, a commitment opens to exactly the pairs with the same sum mod the order |
| Pedersen.SwappedOpening | encryption/pedersen_commitment.py:60-76 | committing to 1 with factor 2 also opens as 2 with factor 1 |
| BulletproofsUtils.ComputeChallenge | verification/bulletproofs/bulletproofs_utils.py:31-47 | the challenge is below `2^length` and is the big-endian digest value reduced mod `2^length` |
| BulletproofsUtils.HashToPoint | verification/bulletproofs/bulletproofs_utils.py:75-88 | reading the hex digest back with `int(..., 16)` gives the digest's big-endian value, below `2^256` |
| BulletproofsUtils.HexToNatToHex | verification/bulletproofs/bulletproofs_utils.py:87 | the hex text of any bytes, read as a base-16 number, is their big-endian value |
| BulletproofsUtils.ChallengeAtFullLength | verification/bulletproofs/bulletproofs_utils.py:31-88 | at the default length of 256 the challenge equals `hash_to_point` of the same text |
| BulletproofsUtils.Multiexponentiation | verification/bulletproofs/bulletproofs_utils.py:50-72 | ValueError exactly for lists of different lengths; otherwise the product of `base ** exponent` over the pairs |
| BulletproofsUtils.ProductSameBase | verification/bulletproofs/bulletproofs_utils.py:69-72 | with one repeated base the product is that base raised to the sum of the exponents |
| BulletproofsUtils.RangeInclusive | verification/bulletproofs/bulletproofs_utils.py:91-105 | both range ends are accepted and an empty range accepts nothing |
| Emulation.GenerateBulletproof | verification/bulletproofs/emulation.py:31-54 | ValueError exactly outside the inclusive range; otherwise the 256-bit challenge of `"{commitment}-{min}-{max}-{status}"` |
| Emulation.VerifyBulletproof | verification/bulletproofs/emulation.py:57-75 | raises where generation raises; otherwise true iff the proof equals the regenerated one |
| Emulation.GeneratedProofVerifies | verification/bulletproofs/emulation.py:31-75 | a proof generated for an in-range commitment verifies with the same range and status |
| Emulation.VerifyMatchesGenerate | verification/bulletproofs/emulation.py:57-75 | verification accepts exactly the proof generation returns |
| Emulation.TranscriptInjective | verification/bulletproofs/emulation.py:52 | the transcript determines commitment, range and status: `-` separators are never confused with signs |
| FastEcdsaImpl.GenerateBulletproof | verification/bulletproofs/fastecdsa_impl.py:47-90 | ImportError without the library, ValueError outside the inclusive range; otherwise the commitment `g*amount + h*blinding` (defaults applied) and the digest of its transcript |
| FastEcdsaImpl.VerifyBulletproof | verification/bulletproofs/fastecdsa_impl.py:93-124 | ImportError without the library; otherwise true iff the proof is the digest recomputed from the commitment and the range |
| FastEcdsaImpl.DefaultGeneratorsArePedersen | verification/bulletproofs/fastecdsa_impl.py:77-84 | with both generators defaulted the commitment is the Pedersen commitment of the amount |
| FastEcdsaImpl.GeneratedProofVerifies | verification/bulletproofs/fastecdsa_impl.py:47-124 | a generated proof verifies for its commitment and range, whatever generators verification is given |
| FastEcdsaImpl.AsWrittenTranscriptCollides | verification/bulletproofs/fastecdsa_impl.py:87-120 | as written, the ranges [1, 23] and [12, 3] share one transcript |
| FastEcdsaImpl.AsWrittenAcceptsEmptyRange | verification/bulletproofs/fastecdsa_impl.py:87-124 | as written, a proof for an amount in [1, 23] verifies for the empty range [12, 3] |
| FastEcdsaImpl.SeparatedTranscriptInjective | verification/bulletproofs/fastecdsa_impl.py:87-120 | with separators the transcript determines the commitment's coordinates and both range ends |
| FastEcdsaImpl.SeparatedProofBindsRange | verification/bulletproofs/fastecdsa_impl.py:87-124 | with separators, a proof accepted for another commitment or range implies a SHA-256 collision |
| BulletproofsCore.Selected | verification/bulletproofs/bulletproofs_core.py:70-77 | dalek iff its flag and import succeeded, fastecdsa likewise, emulation iff its flag; nothing otherwise |
| BulletproofsCore.GenerateBulletproof | verification/bulletproofs/bulletproofs_core.py:53-77 | the selected backend's proof, or ValueError when no backend is selected; the fastecdsa backend runs with the corrected, separated transcript |
| BulletproofsCore.VerifyBulletproof | verification/bulletproofs/bulletproofs_core.py:80-105 | the selected backend's verdict, or ValueError when no backend is selected |
| BulletproofsCore.DefaultIsEmulation | verification/bulletproofs/bulletproofs_core.py:50 | under the shipped flag the emulated backend answers, failing exactly outside the range |
| BulletproofsCore.NoFallback | verification/bulletproofs/bulletproofs_core.py:70-105 | a flag naming a backend that failed to import, or an unknown flag, is an error for both entry points |
| BulletproofsCore.SameBackend | verification/bulletproofs/bulletproofs_core.py:53-105 | generation reports an unsupported backend exactly when verification does |
| BulletproofsCore.EmulatedRoundTrip | verification/bulletproofs/bulletproofs_core.py:74-103 | with the emulated backend, a generated proof verifies |
| PsiProtocol.Init | verification/psi_protocol.py:34-47 | "paillier" keeps a Paillier key pair, "schnorr" a Schnorr key pair, any other name is a ValueError |
| PsiProtocol.EncryptItem | verification/psi_protocol.py:58-62 | Schnorr always signs `str(item)`; Paillier encrypts an int (a bool as 0 or 1) within `max_int` into a ciphertext object (an opaque value), raises ValueError beyond it and TypeError for any other value |
| PsiProtocol.EncryptSet | verification/psi_protocol.py:49-62 | succeeds iff every item encrypts, then one encryption per item, in order, each with its own randomness; otherwise the error of the first item that fails |
| PsiProtocol.EncryptedItems | verification/psi_protocol.py:49-62 | the comprehension started at draw `k` succeeds iff every item `i` encrypts with the `(k+i)`-th randomness |
| PsiProtocol.EncryptedValues | verification/psi_protocol.py:49-62 | a successful comprehension started at draw `k` holds at position `i` the encryption of item `i` with the `(k+i)`-th randomness |
| PsiProtocol.EncryptFailure | verification/psi_protocol.py:49-62 | a failing comprehension raises the error of its first failing item, every earlier item encrypting |
| PsiProtocol.PaillierCiphertexts | verification/psi_protocol.py:59-60 | every entry of a Paillier-encrypted list is a ciphertext object |
| PsiProtocol.PaillierRejectsNonNumber | verification/psi_protocol.py:59-60 | under Paillier a list whose first item is not a number, such as an address string, raises TypeError |
| PsiProtocol.SchnorrEncryptsEverything | verification/psi_protocol.py:61-62 | under Schnorr every list encrypts |
| PsiProtocol.EncryptSetAppend | verification/psi_protocol.py:49-62 | encrypting a concatenation is the first part's encryption followed by the second's, whose randomness continues where the first part's stopped; the first part's error comes first |
| PsiProtocol.VerifyItem | verification/psi_protocol.py:80-96 | the loop unpacks the item, then returns True at the first reference whose signature verifies `str(r)`; a reference that does not unpack raises |
| PsiProtocol.RefMatchesExists | verification/psi_protocol.py:92-96 | for well-formed references, the scan answers True iff some reference verifies |
| PsiProtocol.ComputeIntersection | verification/psi_protocol.py:64-78 | Paillier keeps the items that are members of the references (Python `in`); Schnorr keeps the items `verify_item` accepts, in order |
| PsiProtocol.PaillierNoPlainMatches | verification/psi_protocol.py:75-76 | under Paillier, plain items meet no list of ciphertext objects: the intersection is empty |
| PsiProtocol.PlainIntersection | verification/psi_protocol.py:75-76 | the intersection the Paillier branch evidently intends: an item is kept, with all its duplicates, iff it equals a plaintext of the references |
| PsiProtocol.SchnorrIntersectionFilter | verification/psi_protocol.py:77-96 | with well-formed items and references the Schnorr intersection never raises and keeps exactly the verified items |
| PsiProtocol.PaillierMembership | verification/psi_protocol.py:75-76 | under Paillier, an item's count in the result is its count in the input if it is a reference, else 0 |
| PsiProtocol.EmptyReferenceEmptyIntersection | verification/psi_protocol.py:64-96 | an empty reference list gives an empty intersection |
| PsiProtocol.FilterCount | verification/psi_protocol.py:76-78 | a list comprehension filter keeps every occurrence of a kept value and none of the others |
| ComplianceVerification.Init | verification/compliance_verification.py:34-44 | the checker keeps its level and the PSI scheme, failing exactly when the scheme's constructor fails |
| ComplianceVerification.CheckCompliance | verification/compliance_verification.py:70-99 | the blacklist's, then the whitelist's encryption error propagates; otherwise both encrypted lists are intersected with the addresses; "Compliant" iff there is no blacklist match; `details` present iff the level is advanced |
| ComplianceVerification.WhitelistIrrelevant | verification/compliance_verification.py:89-93 | the whitelist never changes the status |
| ComplianceVerification.EmptyBlacklistCompliant | verification/compliance_verification.py:81-93 | under Paillier an empty blacklist gives a compliant report exactly when the whitelist can be encrypted, and otherwise the whitelist's encryption error |
| ComplianceVerification.PaillierRejectsAddressLists | verification/compliance_verification.py:81-82 | under Paillier a blacklist, or after an encryptable blacklist a whitelist, whose first entry is an address string makes the check raise TypeError |
| ComplianceVerification.VerifyTransaction | verification/compliance_verification.py:101-118 | KeyError without `sender` or `recipient`; otherwise True iff screening exactly those two addresses finds no blacklist match |
| ComplianceVerification.PaillierVerdict | verification/compliance_verification.py:101-118 | under Paillier, when both lists encrypt, a transaction passes iff neither its sender nor its recipient is among the encrypted blacklist entries; otherwise the first encryption error |
| ComplianceVerification.PaillierAlwaysCompliant | verification/compliance_verification.py:81-118 | under Paillier, whenever both lists encrypt, every transaction whose parties are plain values passes: the freshly encrypted blacklist never matches |
| ComplianceVerification.PaillierMissesBlacklisted | verification/compliance_verification.py:81-118 | `{"sender": 7, "recipient": 8}` passes the blacklist `[7]` |
| ComplianceVerification.IntendedVerifyTransaction | verification/compliance_verification.py:101-118 | the corrected verdict raises exactly what `verify_transaction` raises, and equals it under Schnorr |
| ComplianceVerification.PartiesUnlisted | verification/compliance_verification.py:112-118 | the plaintext filter of the two parties is empty iff neither party is listed |
| ComplianceVerification.IntendedVerdict | verification/compliance_verification.py:101-118 | under Paillier, when both lists encrypt, the corrected verdict passes a transaction iff neither its sender nor its recipient is a blacklist entry |
| ComplianceVerification.IntendedCatchesBlacklisted | verification/compliance_verification.py:101-118 | the corrected verdict rejects `{"sender": 7, "recipient": 8}` against the blacklist `[7]` |
| TransactionVerification.AmountWithin | verification/transaction_verification.py:59 | `0 < amount <= MAX_TRANSACTION_AMOUNT` for ints, a bool compares as 0 or 1, anything else raises TypeError |
| TransactionVerification.IsBlacklisted | verification/transaction_verification.py:107-145 | true exactly for the two fixed blacklisted addresses |
| TransactionVerification.IsWhitelisted | verification/transaction_verification.py:122-156 | true exactly for the two fixed whitelisted addresses |
| TransactionVerification.ListsDisjoint | verification/transaction_verification.py:137-156 | no address is on both lists |
| TransactionVerification.ComplianceCheck | verification/transaction_verification.py:42-71 | False for a bad structure; True below the basic level; at basic the amount bound, at advanced also whitelisted, not blacklisted and the PSI verdict; both directions |
| TransactionVerification.AmountBounds | verification/transaction_verification.py:58-60 | an amount of 0 is rejected, the maximum accepted, the maximum plus one rejected |
| TransactionVerification.AdvancedNeedsWhitelist | verification/transaction_verification.py:63-65 | at the advanced level a recipient that is not whitelisted fails |
| TransactionVerification.VerifyAmountRange | verification/transaction_verification.py:74-89 | True when validation is disabled; KeyError without an amount; TypeError for an amount that is not a number; otherwise, for every backend, the dispatcher's generation error or its verdict on the proof it generated over [0, MAX] |
| TransactionVerification.EmulatedAmountRange | verification/transaction_verification.py:84-89 | with the emulated backend an amount in [0, MAX] passes and one outside raises ValueError rather than returning False |
| TransactionUtils.ValidateTxStructure | transactions/transaction_utils.py:61-74 | false for a non-dict; for a dict, true iff all five required fields are keys |
| TransactionUtils.ValidateTxStructureMonotone | transactions/transaction_utils.py:71-74 | adding or overwriting a field keeps a valid transaction valid |
| TransactionUtils.ValidateTxStructureIgnoresValues | transactions/transaction_utils.py:71-74 | replacing the value of a field never changes the verdict |
| TransactionUtils.HashData | transactions/transaction_utils.py:77-91 | ValueError exactly for an algorithm other than sha256; otherwise 64 hex digits of SHA-256 over the UTF-8 text |
| TransactionAnchor.GetBlacklistAddresses | transactions/transaction_anchor.py:101-110 | the fixed two-address list |
| TransactionAnchor.AmountRejected | transactions/transaction_anchor.py:56 | `amount <= 0 or amount > MAX` for ints, a bool compares as 0 or 1, anything else raises TypeError |
| TransactionAnchor.AmountTestsAgree | transactions/transaction_anchor.py:56 | rejects exactly the amounts the verification module's bound does not admit, and raises for the same ones |
| TransactionAnchor.ComplianceCheck | transactions/transaction_anchor.py:39-65 | False for a bad structure; True below the basic level; at basic the amount bound, at advanced also a recipient outside the blacklist; both directions |
| TransactionAnchor.AmountBounds | transactions/transaction_anchor.py:55-57 | zero and MAX + 1 are rejected, MAX itself accepted |
| TransactionAnchor.NoWhitelistRequirement | transactions/transaction_anchor.py:60-63 | at the advanced level a recipient on neither list passes here, where the verification module's check fails |
| TransactionAnchor.WeakerThanVerification | transactions/transaction_anchor.py:39-65 | whatever passes the verification module's check at a level passes this one |
| TransactionAnchor.VerifyAmountRange | transactions/transaction_anchor.py:68-83 | True when validation is disabled, KeyError without an amount, and otherwise the same verdict as the verification module's range check |
| LedgerStore.GenerateTxId | data/ledger_db.py:137-147 | succeeds exactly for serialisable transactions, with a 64-character hex id, the sorted-keys hash |
| LedgerStore.TxIdIgnoresKeyOrder | data/ledger_db.py:147 | two equal dicts get the same id whatever their key order |
| LedgerStore.TxKey | data/ledger_db.py:56-57 | succeeds exactly for a serialisable dict with a family field; the key is `family_id` |
| LedgerStore.Contribution | data/ledger_db.py:95-100 | an entry outside the family adds nothing |
| LedgerStore.SelfTransferCredits | data/ledger_db.py:97-100 | a transfer from an address to itself counts once, as a credit |
| LedgerStore.UnrelatedContributesNothing | data/ledger_db.py:97-100 | a transfer between two other addresses leaves the balance unchanged |
| LedgerStore.BalanceInsert | data/ledger_db.py:91-101 | saving a fresh entry adds exactly its contribution to the balance, wherever its key falls in cursor order |
| LedgerStore.Listed | data/ledger_db.py:114-120 | never lists more transactions than are stored |
| LedgerStore.ListedAll | data/ledger_db.py:118 | without a family every stored transaction is listed, in key order |
| LedgerStore.ListedInsert | data/ledger_db.py:117-119 | a fresh entry of the family appears in the family's listing; one of another family leaves it unchanged |
| LedgerStore.LedgerDB.SaveTransaction | data/ledger_db.py:48-60 | the store stays key-sorted; success iff the key can be formed; on success the transaction is put under its key, replacing any old value; on error nothing changes |
| LedgerStore.LedgerDB.GetTransaction | data/ledger_db.py:62-78 | Some exactly when `family_id` is stored, and then the stored value |
| LedgerStore.LedgerDB.GetBalance | data/ledger_db.py:80-101 | the cursor loop computes the balance over all entries in order, with the first error raised |
| LedgerStore.LedgerDB.GetAllTransactions | data/ledger_db.py:103-120 | the cursor loop collects exactly the listing of the family, or every value |
| LedgerStore.LedgerDB.DeleteTransaction | data/ledger_db.py:122-135 | True iff the key was stored; exactly that key is removed |
| LedgerStore.SaveThenGet | data/ledger_db.py:56-77 | after a save, reading with the transaction's id and family returns it; saving again changes nothing |
| NotaryStore.RecordKey | data/notary_db.py:72 | the key is `notary_` followed by the id, which can be read back from it |
| NotaryStore.AddMinutes | data/notary_db.py:68 | `utcnow() + timedelta(minutes=m)`: OverflowError exactly when the `timedelta` would exceed 999999999 days or the sum leaves the years 1 to 9999; otherwise the clock plus `60*m` seconds |
| NotaryStore.ClockInRangeAddMinutes | data/notary_db.py:68 | for a clock reading `datetime` represents, the addition fails exactly when the sum leaves the `datetime` range |
| NotaryStore.HugeLifetimeOverflows | data/notary_db.py:68 | from 1440·10^9 minutes on, `timedelta` raises OverflowError whatever the clock reads |
| NotaryStore.NotaryRecord | data/notary_db.py:61-69 | content, signature and timestamp always; `expires_at` (the second clock read plus the minutes) exactly when the lifetime is positive; OverflowError, and no record, when that expiry is out of range |
| NotaryStore.Listed | data/notary_db.py:113-124 | never lists more records than are stored |
| NotaryStore.ListedUnexpired | data/notary_db.py:119-122 | without `include_expired` no listed record is expired |
| NotaryStore.ListedAll | data/notary_db.py:116-123 | with `include_expired` the listing is exactly the records under `notary_` keys, in cursor order |
| NotaryStore.ListedWithoutExpired | data/notary_db.py:119-123 | without `include_expired` the listing is the full listing less its expired records, in order |
| NotaryStore.ListedIncludesExpired | data/notary_db.py:116-123 | including expired records lists exactly the `notary_` records, in cursor order; the listing without them is that list less the expired records, so never longer |
| NotaryStore.NotaryDB.SaveNotaryRecord | data/notary_db.py:46-77 | an expiry out of range raises OverflowError and stores nothing; otherwise returns the record's hash id and stores the record under `notary_<id>`; a record that cannot be serialised stores nothing |
| NotaryStore.NotaryDB.GetNotaryRecord | data/notary_db.py:79-100 | None for an absent key; an expired record is deleted and None returned; any other record is returned and nothing changes |
| NotaryStore.NotaryDB.ListNotaryRecords | data/notary_db.py:102-124 | the cursor loop collects exactly the listing |
| NotaryStore.NotaryDB.DeleteNotaryRecord | data/notary_db.py:126-138 | True iff the key was stored; exactly that key is removed |
| NotaryStore.NoLifetimeNeverExpires | data/notary_db.py:67-94 | a record saved without a positive lifetime is always built and never expired |
| NotaryStore.ExpiryBoundary | data/notary_db.py:68-96 | a record with a lifetime is built exactly when its expiry is in range; it is then still readable at its expiry instant and expired one second later |
| NotaryInterface.RegisterNotaryRecord | data/notary_interface.py:35-42 | saves the record with no signature and no lifetime, and nothing else |
| NotaryInterface.AnchorRecord | data/notary_interface.py:52-57 | OverflowError exactly when the first clock read plus the window is out of range; otherwise exactly the keys `tx_id`, `anchored_at`, `expires_at`, the expiry being that sum and `anchored_at` the second read |
| NotaryInterface.AnchorWithinWindow | data/notary_interface.py:52-55 | for an anchor record that is built, `expires_at - anchored_at` never exceeds the window |
| NotaryInterface.AnchorTransaction | data/notary_interface.py:44-58 | the anchor record's OverflowError propagates and stores nothing; otherwise succeeds exactly when the id serialises, and then stores the anchor record as a record's content |
| NotaryInterface.AnchorSerializable | data/notary_interface.py:53-58 | a built anchor's stored record serialises exactly when its id does |
| NotaryInterface.VerifyNotaryRecord | data/notary_interface.py:60-70 | exactly the store's read: None for absent or expired (then deleted), else the record |
| NotaryInterface.AnchorNeverLapses | data/notary_interface.py:56-58 | the expiry of an anchor that was made is nested in the content, so the anchor reads back however late |
| DataTransaction.Header | data/transaction.py:55-60 | exactly the four fields with the given values |
| DataTransaction.HeaderId | data/transaction.py:63 | succeeds exactly when sender, recipient and amount serialise, with a 64-character id |
| DataTransaction.HeaderSerializable | data/transaction.py:55-63 | the header serialises exactly when its three caller-supplied values do |
| DataTransaction.HeaderIdIgnoresOrder | data/transaction.py:63 | any dict equal to the header hashes to the same id |
| DataTransaction.SignedBody | data/transaction.py:63-74 | error exactly for a header that cannot be hashed or a non-hex key; otherwise the three fields, then the signature over them |
| DataTransaction.BodyKeys | data/transaction.py:66-70 | the body's keys are `tx_id`, `header`, `tx_family` |
| DataTransaction.CreateTransaction | data/transaction.py:38-86 | returns the signed body and saves it in the notary store (with the lifetime, whose OverflowError propagates) or else in the ledger; the other store is untouched; errors leave both unchanged |
| DataTransaction.Contains | data/transaction.py:105 | TypeError exactly for a value that cannot hold members; on a dict, key membership |
| DataTransaction.HeaderComplete | data/transaction.py:101-105 | on a dict, True iff all four required fields are keys |
| DataTransaction.ValidateTransaction | data/transaction.py:89-113 | AttributeError for a non-dict; False without a complete header; True iff the header is complete and the attached signature verifies |
| DataTransaction.CreatedTransactionValidates | data/transaction.py:38-113 | a created transaction validates under the signer's public key |
| TransactionEmulator.SignedTransaction | transactions/transaction_emulator.py:61-87 | error exactly for a header that cannot be hashed or a non-hex key; otherwise the five fields, then the signature over them |
| TransactionEmulator.CancelVerdict | transactions/transaction_emulator.py:139-141 | False for an empty dict; KeyError never anchored; TypeError for a non-numeric stamp; True iff within the window |
| TransactionEmulator.CancelBoundary | transactions/transaction_emulator.py:140 | the window is inclusive: cancelling exactly `window` seconds later succeeds, one second later fails |
| TransactionEmulator.VerifyCommitment | transactions/transaction_emulator.py:147-160 | always True |
| TransactionEmulator.ValidateTransaction | transactions/transaction_emulator.py:93-112 | a signature error or False propagates; True exactly when the signature verifies and the commitment and amount fields exist |
| TransactionEmulator.CreatedTransactionValidates | transactions/transaction_emulator.py:47-112 | a created transaction validates under the signer's public key |
| TransactionEmulator.SignedCarriesId | transactions/transaction_emulator.py:70-78 | the transaction carries its header id under `tx_id` |
| TransactionEmulator.SignedSerializable | transactions/transaction_emulator.py:77-87 | the transaction has `tx_family` and serialises exactly when family, encrypted amount and commitment do |
| TransactionEmulator.TransactionEmulator.CreateTransaction | transactions/transaction_emulator.py:47-91 | a fresh transaction object, stored in the ledger under its id; the notary storage is untouched |
| TransactionEmulator.TransactionEmulator.AnchorTransaction | transactions/transaction_emulator.py:114-127 | KeyError without `tx_id`; on success the object itself gets `anchored = now` and is stored under its id, and the message names the id |
| TransactionEmulator.TransactionEmulator.CancelTransaction | transactions/transaction_emulator.py:129-145 | False for an unknown id, else the window verdict; only on True exactly that id is removed |
| TransactionEmulator.TransactionEmulator.ListLedgerTransactions | transactions/transaction_emulator.py:162-169 | one entry per stored transaction, every stored transaction included |
| TransactionEmulator.TransactionEmulator.ListNotaryAnchors | transactions/transaction_emulator.py:171-178 | one entry per anchored transaction, every anchored transaction included |
| TransactionEmulator.ValuesListed | transactions/transaction_emulator.py:169-178 | every value a dict maps to is among its `values()` |
| TransactionEmulator.CancelTwice | transactions/transaction_emulator.py:139-145 | after a successful cancellation a second one at the same moment fails |
| TransactionEmulator.AnchorThenCancel | transactions/transaction_emulator.py:114-145 | a transaction anchored at `t` can be cancelled at `t + 120`, and only once |
| TransactionFlow.AnchorStore.AnchorTransaction | transactions/transaction_flow.py:123-124 | KeyError without `tx_id`, TypeError for an id that is not a string, and then nothing changes; on success the object gets `anchored = now` and is kept under its id |
| TransactionFlow.AnchorStore.CancelAnchor | transactions/transaction_flow.py:142-152 | False for an unknown id, else the window verdict; only on True exactly that id goes |
| TransactionFlow.TransactionFlow.CreateAndEncryptTransaction | transactions/transaction_flow.py:51-101 | success iff signing and the ledger key succeed; the serialised body is put in the ledger and, when asked, the object is anchored; errors change nothing |
| TransactionFlow.TransactionFlow.ValidateAndAnchorTransaction | transactions/transaction_flow.py:103-125 | a failed validation is returned; a valid transaction without `tx_id` gives KeyError, one with a non-string id TypeError; True iff valid and the id is a string, and then the object is anchored; unless True nothing changes; the ledger is untouched |
| TransactionFlow.TransactionFlow.CancelTransaction | transactions/transaction_flow.py:142-152 | exactly the anchor component's cancellation; the ledger is untouched |
| TransactionFlow.CreateValidateCancel | transactions/transaction_flow.py:51-152 | an unanchored transaction cannot be cancelled; once validated under the signer's key it is anchored and can be cancelled |

## Left out

- Persistence, the LMDB map size and key-size limits, and `close()` (ledger, notary store, flow): the stores are in-memory sequences.
- The nested write inside a read transaction in `get_notary_record`, and all concurrency: the model is sequential.
- `from_json` and `json.loads` of stored text: a stored value is kept as the value itself, so a write followed by a read returns what was written.
- The text `json.dumps` produces, and Python `str()`/`repr()` of nested values: uninterpreted primitives; only sorted-key ordering (`Canonical`) is modelled.
- `datetime.isoformat`/`fromisoformat` and `time.strftime`: instants are whole seconds from 1970-01-01 and timestamps are the opaque `stamp` text; the `datetime` range (years 1 to 9999) is modelled where the notary adds a lifetime (`NotaryStore.AddMinutes`); the ISO text of a Unix time is modelled only by `TimeUtils.TimestampToIso`.
- `current_timestamp` and `format_timestamp`: they only read the clock, which is a parameter.
- TimeUtils.TimestampToIso: timestamps are natural numbers, so instants before 1970 and fractional seconds are not modelled. The three error kinds follow CPython on a 64-bit platform whose `gmtime` keeps the year in a C `int`.
- NotaryStore.Listed: one clock reading `now` serves the whole scan. The code reads `datetime.utcnow()` again for each record with an expiry (data/notary_db.py:121), so a scan that spans an expiry instant can judge records at different instants.
- BulletproofsUtils.Multiexponentiation: exponents are natural numbers. For a negative exponent Python's `base ** exponent` gives a float, or raises ZeroDivisionError for a zero base; neither is a value here.
- DataUtils.ConvertToJson: the `print` of the error message before returning None (data/utils.py:74) is console output and is left out.
- Floating-point `time.time()`: whole seconds.
- `generate_keys`, fresh randomness, SHA-256, Keccak-256, ECDSA and curve arithmetic: uninterpreted primitives with the algebraic facts stated in `Crypto` (ECDSA completeness, a cyclic group of prime order).
- ECDSA's handling of well-formed hex that does not encode a valid key: `VerifySignature` gives the library's verdict, and an exception other than `BadSignatureError` is not modelled.
- Signature.SignTransaction: `SigningKey.from_string` raises `MalformedPointError` for a hex private key that is not 32 bytes long or whose value is not in `[1, N)`; the model signs with any hex key. Key validity is a property of the uninterpreted ECDSA library, like the rest of its behaviour.
- BulletproofsCore.GenerateBulletproof: the fastecdsa backend is dispatched with the separated transcript (`FastEcdsaImpl.Separated`), the corrected definition of the row under "## Findings", not with the concatenation the code writes (`FastEcdsaImpl.AsWritten`). The as-written proof differs only in the bytes hashed. `BulletproofsCore.VerifyBulletproof` is unaffected: with the library present its fastecdsa branch raises AttributeError before any transcript is formed.
- TransactionVerification.VerifyAmountRange: an amount that is not a number raises TypeError before the backend is consulted, as the emulated backend's range comparison does; the fastecdsa backend without its library would raise ImportError first, and what the dalek backend does with such a value is foreign.
- Paillier encryption and Schnorr signatures in the PSI scheme: uninterpreted functions. Which values Paillier can encode is modelled (ints and bools within `max_int`); floats are not values here.
- PsiProtocol.ComputeIntersection: under Paillier, membership is Python `in`. phe's `EncryptedNumber` defines no equality, so `in` compares ciphertext objects by identity. A ciphertext here is an opaque value named by the key, the plaintext and the randomness. Like the object, it equals no plain value. Two ciphertexts of the same plaintext with the same randomness are equal here but are two objects in Python. `check_compliance` never compares two such ciphertexts, since it encrypts its lists afresh and intersects them with plain addresses. Values are compared structurally, so a plain dict reference whose keys are in another order does not match here, though it equals in Python; `encrypt_set` never produces such a reference. There is no homomorphic reasoning.
- `encrypt_transaction_amount` and `create_pedersen_commitment`, called by the emulator and the flow but not defined with those signatures: their results are parameters `encrypted` and `commitment`.
- `load_blacklist` and `load_whitelist`: they scan an LMDB database; the lists are parameters of `ComplianceVerification.CheckCompliance`.
- The `cffi` dalek backend: whether its import succeeded is modelled; its generate and verify calls are opaque function values in `BulletproofsCore.Config`.
- Helpers.IsHexString: `int(s, 16)` also reads non-ASCII Unicode decimal digits (such as Arabic-Indic `٣`) as digits, and accepts `bytes` and `bytearray` arguments. The model accepts only ASCII hex digits with the trimmed whitespace, sign, `0x` prefix and underscores, and there is no bytes value, so every non-string gives TypeError.
- `True == 1` key equality in Python dicts and lists: `JBool(true)` and `JInt(1)` are distinct values.
- A `tx_id` that is not a string in the emulator and the flow: the model raises TypeError where Python would store a hashable non-string key. For an unhashable id (a list or a dict), Python stamps `tx["anchored"]` before the store raises TypeError (transactions/transaction_emulator.py:125-126), so the stamp persists, visible through the ledger's alias; `TransactionEmulator.TransactionEmulator.AnchorTransaction` leaves the dict unchanged on that error path.
- Floating-point amounts: floats are not values here, so the amount tests of both compliance variants raise TypeError for every non-integer amount.

## Findings

| source | as written | input that shows it | evidently intended | confidence | as-written member | corrected member |
|---|---|---|---|---|---|---|
| verification/bulletproofs/fastecdsa_impl.py:87-88, 120-121 | the proof hashes `f"{x}{y}{min}{max}"`, the four numbers with no separator | range [1, 23] and range [12, 3] give the same transcript for the same commitment, so a proof for an amount in [1, 23] verifies for the empty range [12, 3] | a transcript that determines the commitment and both range ends, so a proof binds its range; the `BulletproofsCore` dispatcher uses this corrected form | not executed | FastEcdsaImpl.AsWrittenAcceptsEmptyRange | FastEcdsaImpl.SeparatedProofBindsRange |
| verification/compliance_verification.py:81-85, 112-118 | under Paillier the blacklist is encrypted afresh and intersected with the plain addresses by `in` (verification/psi_protocol.py:76); a ciphertext object equals no address | `{"sender": 7, "recipient": 8}` against the blacklist `[7]` passes; every transaction with plain parties passes once both lists encrypt | the parties compared with the blacklist entries by value, so a blacklisted party fails; `ComplianceVerification.IntendedVerifyTransaction` states this | not executed | ComplianceVerification.PaillierMissesBlacklisted | ComplianceVerification.IntendedVerdict |
