/**
 * The external challenger (`challenger.rs`): it owns the key pair, encrypts
 * random challenge plaintexts for the prover, and checks what comes back.
 *
 * Its scheme is a scaled variant of the toy scheme: 64 coefficients below
 * q = 2^58, the plaintext residue modulo t = 65537 multiplied by the scaling
 * factor Δ = q / t plus a small noise magnitude below t / 16 in coefficient
 * 0, and decryption `(c0 / Δ) % t`. Since the noise stays below Δ,
 * decryption recovers the residue exactly.
 */
module Challenger {
  import opened Wrappers
  import opened Words
  import opened Text
  import Arith

  const PLAINTEXT_MODULUS: nat := 65537
  const CIPHERTEXT_MODULUS: nat := 0x400_0000_0000_0000
  const POLYNOMIAL_DEGREE: nat := 32
  const CIPHER_WORDS: nat := 64
  const CIPHER_BYTES: nat := 512
  /** `CIPHERTEXT_MODULUS / PLAINTEXT_MODULUS`. */
  const SCALING_FACTOR: nat := CIPHERTEXT_MODULUS / PLAINTEXT_MODULUS
  /** `PLAINTEXT_MODULUS / 16`: the noise magnitude in coefficient 0 is reduced below this. */
  const NOISE_BOUND: nat := PLAINTEXT_MODULUS / 16

  type Coeffs = s: seq<u64> | |s| == 64 witness seq(64, _ => 0)

  datatype Cipher = Cipher(data: Coeffs)
  datatype PublicKey = PublicKey(keyData: seq<u64>)
  datatype PrivateKey = PrivateKey(secretData: seq<u64>)
  datatype ChallengeKeys = ChallengeKeys(publicKey: PublicKey, privateKey: PrivateKey)

  /** The scheme parameters sent with a challenge; the noise deviation 3.19 is a float and is not part of this model. */
  datatype FheParameters = FheParameters(plaintextModulus: nat, ciphertextModulus: nat, polynomialDegree: nat)

  const PARAMETERS := FheParameters(PLAINTEXT_MODULUS, CIPHERTEXT_MODULUS, POLYNOMIAL_DEGREE)

  datatype ExternalChallenger = ExternalChallenger(keys: ChallengeKeys, parameters: FheParameters)

  datatype ChallengeMetadata = ChallengeMetadata(
    testId: string,
    challengePlaintexts: seq<i64>,
    expectedOperations: seq<string>,
    timestamp: u64)

  datatype ChallengeInput = ChallengeInput(
    parameters: FheParameters,
    publicKey: PublicKey,
    challengeCiphertexts: seq<seq<u8>>,
    challengeMetadata: ChallengeMetadata)

  datatype VerificationResult = VerificationResult(
    success: bool,
    error: Option<string>,
    decryptedResults: Option<seq<i64>>,
    verificationLog: seq<string>)

  lemma ConstantValues()
    ensures SCALING_FACTOR == 4397979403263 && NOISE_BOUND == 4096
  {
    Arith.DivModUnique(CIPHERTEXT_MODULUS, PLAINTEXT_MODULUS, 4397979403263, 64513);
    Arith.DivModUnique(PLAINTEXT_MODULUS, 16, 4096, 1);
  }

  // ---------------------------------------------------------------------
  // Keys

  /** The ranges of `generate_challenge_keys`: 32 secret coefficients below t and 32 public ones below q. */
  predicate KeysInRange(keys: ChallengeKeys) {
    && |keys.publicKey.keyData| == POLYNOMIAL_DEGREE
    && |keys.privateKey.secretData| == POLYNOMIAL_DEGREE
    && (forall i :: 0 <= i < POLYNOMIAL_DEGREE ==> keys.privateKey.secretData[i] < PLAINTEXT_MODULUS)
    && (forall i :: 0 <= i < POLYNOMIAL_DEGREE ==> keys.publicKey.keyData[i] < CIPHERTEXT_MODULUS)
  }

  /** `generate_challenge_keys`, with the random draws as parameters: two zeroed vectors filled coefficient by coefficient. */
  method GenerateChallengeKeys(secretDraws: seq<u64>, publicDraws: seq<u64>) returns (keys: ChallengeKeys)
    requires |secretDraws| == POLYNOMIAL_DEGREE && |publicDraws| == POLYNOMIAL_DEGREE
    requires forall i :: 0 <= i < POLYNOMIAL_DEGREE ==> secretDraws[i] < PLAINTEXT_MODULUS && publicDraws[i] < CIPHERTEXT_MODULUS
    ensures KeysInRange(keys)
    ensures keys.publicKey.keyData == publicDraws && keys.privateKey.secretData == secretDraws
  {
    var publicKeyData := new u64[POLYNOMIAL_DEGREE];
    var secretKeyData := new u64[POLYNOMIAL_DEGREE];
    for i := 0 to POLYNOMIAL_DEGREE
      invariant secretKeyData[..i] == secretDraws[..i]
      invariant publicKeyData[..i] == publicDraws[..i]
    {
      secretKeyData[i] := secretDraws[i];
      publicKeyData[i] := publicDraws[i];
    }
    assert secretKeyData[..] == secretDraws && publicKeyData[..] == publicDraws;
    keys := ChallengeKeys(PublicKey(publicKeyData[..]), PrivateKey(secretKeyData[..]));
  }

  /** `ExternalChallenger::new`: the fixed parameters and a freshly drawn key pair. */
  method NewChallenger(secretDraws: seq<u64>, publicDraws: seq<u64>) returns (challenger: ExternalChallenger)
    requires |secretDraws| == POLYNOMIAL_DEGREE && |publicDraws| == POLYNOMIAL_DEGREE
    requires forall i :: 0 <= i < POLYNOMIAL_DEGREE ==> secretDraws[i] < PLAINTEXT_MODULUS && publicDraws[i] < CIPHERTEXT_MODULUS
    ensures challenger.parameters == PARAMETERS && KeysInRange(challenger.keys)
    ensures challenger.keys.publicKey.keyData == publicDraws && challenger.keys.privateKey.secretData == secretDraws
  {
    var keys := GenerateChallengeKeys(secretDraws, publicDraws);
    challenger := ExternalChallenger(keys, PARAMETERS);
  }

  // ---------------------------------------------------------------------
  // Encryption and decryption

  /** `(plaintext.val as u64) % 65537`. */
  function PlaintextResidue(plaintext: i64): (r: nat)
    ensures r < PLAINTEXT_MODULUS
  {
    AsU64(plaintext) % PLAINTEXT_MODULUS
  }

  /** A non-negative plaintext keeps its ordinary residue. */
  lemma ResidueOfNonNegative(plaintext: i64)
    requires plaintext >= 0
    ensures PlaintextResidue(plaintext) == plaintext % PLAINTEXT_MODULUS
  {
  }

  /**
   * A negative plaintext is cast to `plaintext + 2^64` first, and 2^64 is 1
   * more than a multiple of 65537, so its residue is that of `plaintext + 1`:
   * -1 is encrypted as 0.
   */
  lemma ResidueOfNegative(plaintext: i64)
    requires plaintext < 0
    ensures PlaintextResidue(plaintext) == (plaintext + 1) % PLAINTEXT_MODULUS
  {
    assert AsU64(plaintext) == 281470681808895 * PLAINTEXT_MODULUS + (plaintext + 1);
    Arith.ModAddMultiple(281470681808895, plaintext + 1, PLAINTEXT_MODULUS);
  }

  /** The scaled residue plus the noise magnitude reduced below t/16: coefficient 0 of a challenge ciphertext. */
  function ScaledCoefficient(residue: nat, noiseSample: u64): (c0: u64)
    requires residue < PLAINTEXT_MODULUS
    ensures c0 == residue * SCALING_FACTOR + noiseSample % NOISE_BOUND
  {
    ConstantValues();
    ScaledFits(residue, noiseSample % NOISE_BOUND);
    (residue * SCALING_FACTOR + noiseSample % NOISE_BOUND) % CIPHERTEXT_MODULUS
  }

  /** A scaled residue plus noise below t/16 stays below q, so the reduction modulo q never changes it. */
  lemma ScaledFits(residue: nat, noise: nat)
    requires residue < PLAINTEXT_MODULUS && noise < NOISE_BOUND
    ensures residue * SCALING_FACTOR + noise < CIPHERTEXT_MODULUS
  {
    ConstantValues();
    assert residue * 4397979403263 <= 65536 * 4397979403263;
  }

  /** The ciphertext `encrypt` builds from the plaintext, the first noise magnitude and 63 further magnitudes. */
  function Encryption(plaintext: i64, noiseSample: u64, coeffSamples: seq<u64>): (c: Cipher)
    requires |coeffSamples| == CIPHER_WORDS - 1
  {
    Cipher([ScaledCoefficient(PlaintextResidue(plaintext), noiseSample)]
      + seq(CIPHER_WORDS - 1, i requires 0 <= i < CIPHER_WORDS - 1 => coeffSamples[i] % CIPHERTEXT_MODULUS))
  }

  /**
   * `encrypt`. The float Gaussian samples enter as their magnitudes already
   * cast to `u64` (`noiseSample` for coefficient 0, `coeffSamples` for
   * coefficients 1..63); the reductions modulo t/16 and modulo q are kept.
   * With the fixed deviation 3.19 the distribution is always well formed, so
   * the source's error path never fires and the result is the ciphertext.
   */
  method Encrypt(plaintext: i64, noiseSample: u64, coeffSamples: seq<u64>) returns (c: Cipher)
    requires |coeffSamples| == CIPHER_WORDS - 1
    ensures c == Encryption(plaintext, noiseSample, coeffSamples)
    ensures c.data[0] == PlaintextResidue(plaintext) * SCALING_FACTOR + noiseSample % NOISE_BOUND
    ensures forall i :: 1 <= i < CIPHER_WORDS ==> c.data[i] < CIPHERTEXT_MODULUS
  {
    var plaintextVal := PlaintextResidue(plaintext);
    var ciphertextData := new u64[CIPHER_WORDS];
    ciphertextData[0] := ScaledCoefficient(plaintextVal, noiseSample);
    for i := 1 to CIPHER_WORDS
      invariant ciphertextData[..i] == Encryption(plaintext, noiseSample, coeffSamples).data[..i]
    {
      ciphertextData[i] := coeffSamples[i - 1] % CIPHERTEXT_MODULUS;
    }
    c := Cipher(ciphertextData[..]);
    assert c.data == c.data[..CIPHER_WORDS];
  }

  /** Decryption of coefficient 0: divide by the scaling factor and reduce modulo t. */
  function Descale(c0: u64): (m: nat)
    ensures m < PLAINTEXT_MODULUS
  {
    (c0 / SCALING_FACTOR) % PLAINTEXT_MODULUS
  }

  /** Noise below t/16 is far below Δ, so descaling removes it and gives back the residue. */
  lemma DescaleScaled(residue: nat, noiseSample: u64)
    requires residue < PLAINTEXT_MODULUS
    ensures Descale(ScaledCoefficient(residue, noiseSample)) == residue
  {
    ConstantValues();
    var noise := noiseSample % NOISE_BOUND;
    Arith.DivModUnique(residue * SCALING_FACTOR + noise, SCALING_FACTOR, residue, noise);
  }

  /**
   * `serialize_ciphertext`: each coefficient as eight little-endian bytes, 512 in all.
   * `ToyFhe.Serialize` is the guest scheme's counterpart, over 16 coefficients.
   */
  method SerializeCiphertext(c: Cipher) returns (bytes: seq<u8>)
    ensures bytes == Encode(c.data) && |bytes| == CIPHER_BYTES
  {
    bytes := SerializeWords(c.data);
  }

  /** The error message for an input of the wrong length. */
  function LengthError(got: nat): string {
    "Invalid ciphertext length: expected 512, got " + NatToString(got)
  }

  /** The value decrypted from a 512-byte ciphertext: coefficient 0 descaled. */
  function DecodedValue(bytes: seq<u8>): i64
    requires |bytes| == CIPHER_BYTES
  {
    Descale(FromLeBytes(bytes[..8]))
  }

  /** What `deserialize_and_decrypt` returns. */
  function Decrypted(data: seq<u8>): (r: Result<i64, string>)
    ensures r.Err? <==> |data| != CIPHER_BYTES
    ensures r.Ok? ==> 0 <= r.value < PLAINTEXT_MODULUS
  {
    if |data| != CIPHER_BYTES then Err(LengthError(|data|)) else Ok(DecodedValue(data))
  }

  /**
   * `deserialize_and_decrypt`: reject any length but 512, read the 64
   * coefficients and descale coefficient 0. The private key is not used.
   * The slice conversion inside the loop always gets exactly eight bytes,
   * so its error path never fires.
   */
  method DeserializeAndDecrypt(data: seq<u8>) returns (r: Result<i64, string>)
    ensures r == Decrypted(data)
  {
    if |data| != CIPHER_BYTES {
      return Err(LengthError(|data|));
    }
    var ciphertextData := DeserializeWords(data, CIPHER_WORDS);
    assert ciphertextData[0] == FromLeBytes(data[..8]);
    r := Ok(Descale(ciphertextData[0]));
  }

  /** The serialised challenge ciphertext of a plaintext. */
  function SerializedEncryption(plaintext: i64, noiseSample: u64, coeffSamples: seq<u64>): (bytes: seq<u8>)
    requires |coeffSamples| == CIPHER_WORDS - 1
    ensures |bytes| == CIPHER_BYTES
  {
    Encode(Encryption(plaintext, noiseSample, coeffSamples).data)
  }

  /**
   * Round trip: a serialised challenge ciphertext is accepted and decrypts to
   * the plaintext's residue, whatever noise was drawn.
   */
  lemma DecryptsEncryption(plaintext: i64, noiseSample: u64, coeffSamples: seq<u64>)
    requires |coeffSamples| == CIPHER_WORDS - 1
    ensures Decrypted(SerializedEncryption(plaintext, noiseSample, coeffSamples)) == Ok(PlaintextResidue(plaintext))
  {
    var c := Encryption(plaintext, noiseSample, coeffSamples);
    var bytes := Encode(c.data);
    EncodeAt(c.data, 0);
    assert bytes[..8] == bytes[0..8];
    assert FromLeBytes(bytes[..8]) == c.data[0];
    DescaleScaled(PlaintextResidue(plaintext), noiseSample);
  }

  /** Every plaintext from 0 to 65536 survives encryption and decryption unchanged. */
  lemma DecryptsPlaintext(plaintext: i64, noiseSample: u64, coeffSamples: seq<u64>)
    requires 0 <= plaintext < PLAINTEXT_MODULUS && |coeffSamples| == CIPHER_WORDS - 1
    ensures Decrypted(SerializedEncryption(plaintext, noiseSample, coeffSamples)) == Ok(plaintext)
  {
    ResidueOfNonNegative(plaintext);
    Arith.DivModUnique(plaintext as int, PLAINTEXT_MODULUS, 0, plaintext as int);
    DecryptsEncryption(plaintext, noiseSample, coeffSamples);
  }

  /** -1 is encrypted as 0 and decrypts to 0, not to its residue 65536. */
  lemma MinusOneDecryptsToZero(noiseSample: u64, coeffSamples: seq<u64>)
    requires |coeffSamples| == CIPHER_WORDS - 1
    ensures Decrypted(SerializedEncryption(-1, noiseSample, coeffSamples)) == Ok(0)
    ensures -1 % PLAINTEXT_MODULUS == 65536
  {
    DecryptsEncryption(-1, noiseSample, coeffSamples);
    ResidueOfNegative(-1);
  }

  // ---------------------------------------------------------------------
  // Challenge creation

  const EXPECTED_OPERATIONS: seq<string> := ["HomomorphicAdd", "DecryptFinalTallies"]

  /** The challenge input `create_challenge` assembles from its draws. */
  function Challenge(challenger: ExternalChallenger, testId: string, plaintexts: seq<i64>, noiseSamples: seq<u64>, coeffSamples: seq<seq<u64>>, timestamp: u64): ChallengeInput
    requires |noiseSamples| == |plaintexts| && |coeffSamples| == |plaintexts|
    requires forall i :: 0 <= i < |plaintexts| ==> |coeffSamples[i]| == CIPHER_WORDS - 1
  {
    ChallengeInput(
      challenger.parameters,
      challenger.keys.publicKey,
      seq(|plaintexts|, i requires 0 <= i < |plaintexts| => SerializedEncryption(plaintexts[i], noiseSamples[i], coeffSamples[i])),
      ChallengeMetadata(testId, plaintexts, EXPECTED_OPERATIONS, timestamp))
  }

  /** Every challenge ciphertext decrypts to the plaintext recorded beside it. */
  lemma ChallengeDecrypts(challenger: ExternalChallenger, testId: string, plaintexts: seq<i64>, noiseSamples: seq<u64>, coeffSamples: seq<seq<u64>>, timestamp: u64)
    requires |noiseSamples| == |plaintexts| && |coeffSamples| == |plaintexts|
    requires forall i :: 0 <= i < |plaintexts| ==> 0 <= plaintexts[i] < 3 && |coeffSamples[i]| == CIPHER_WORDS - 1
    ensures var input := Challenge(challenger, testId, plaintexts, noiseSamples, coeffSamples, timestamp);
      |input.challengeCiphertexts| == |input.challengeMetadata.challengePlaintexts|
      && forall i :: 0 <= i < |plaintexts| ==>
        Decrypted(input.challengeCiphertexts[i]) == Ok(input.challengeMetadata.challengePlaintexts[i])
  {
    forall i | 0 <= i < |plaintexts|
      ensures Decrypted(SerializedEncryption(plaintexts[i], noiseSamples[i], coeffSamples[i])) == Ok(plaintexts[i])
    {
      DecryptsPlaintext(plaintexts[i], noiseSamples[i], coeffSamples[i]);
    }
  }

  /** Encrypt and serialise one challenge plaintext. */
  method EncryptChallenge(plaintext: i64, noiseSample: u64, coeffSamples: seq<u64>) returns (serialized: seq<u8>)
    requires |coeffSamples| == CIPHER_WORDS - 1
    ensures serialized == SerializedEncryption(plaintext, noiseSample, coeffSamples)
  {
    var ciphertext := Encrypt(plaintext, noiseSample, coeffSamples);
    serialized := SerializeCiphertext(ciphertext);
  }

  /**
   * `create_challenge`: draw `numVotes` plaintexts from 0..3, encrypt and
   * serialise each, and record the plaintexts, the expected operations and
   * the clock reading in the metadata. The draws and the clock are
   * parameters.
   */
  method CreateChallenge(challenger: ExternalChallenger, testId: string, numVotes: nat,
                         plaintextDraws: seq<i64>, noiseSamples: seq<u64>, coeffSamples: seq<seq<u64>>, timestamp: u64)
    returns (input: ChallengeInput)
    requires |plaintextDraws| == numVotes && |noiseSamples| == numVotes && |coeffSamples| == numVotes
    requires forall i :: 0 <= i < numVotes ==> 0 <= plaintextDraws[i] < 3 && |coeffSamples[i]| == CIPHER_WORDS - 1
    ensures input == Challenge(challenger, testId, plaintextDraws, noiseSamples, coeffSamples, timestamp)
    ensures |input.challengeCiphertexts| == numVotes
  {
    ghost var expected := Challenge(challenger, testId, plaintextDraws, noiseSamples, coeffSamples, timestamp).challengeCiphertexts;
    var challengePlaintexts: seq<i64> := [];
    var challengeCiphertexts: seq<seq<u8>> := [];
    for i := 0 to numVotes
      invariant challengePlaintexts == plaintextDraws[..i]
      invariant challengeCiphertexts == expected[..i]
    {
      var plaintextVal := plaintextDraws[i];
      var serialized := EncryptChallenge(plaintextVal, noiseSamples[i], coeffSamples[i]);
      challengePlaintexts := challengePlaintexts + [plaintextVal];
      challengeCiphertexts := challengeCiphertexts + [serialized];
    }
    assert plaintextDraws[..numVotes] == plaintextDraws && expected[..numVotes] == expected;
    var metadata := ChallengeMetadata(testId, challengePlaintexts, EXPECTED_OPERATIONS, timestamp);
    input := ChallengeInput(challenger.parameters, challenger.keys.publicKey, challengeCiphertexts, metadata);
  }

  // ---------------------------------------------------------------------
  // Verification

  /** The stub `verify_receipt`: every receipt is accepted. */
  function VerifyReceipt(receipt: seq<u8>): (valid: bool)
    ensures valid
  {
    true
  }

  /** `iter().sum()` over integers. */
  function Sum(s: seq<int>): int {
    if s == [] then 0 else Sum(s[..|s| - 1]) + s[|s| - 1]
  }

  /** The index of the first result that is not 512 bytes long, or the number of results. */
  function FirstUndecryptable(results: seq<seq<u8>>): (i: nat)
    ensures i <= |results|
    ensures forall j :: 0 <= j < i ==> |results[j]| == CIPHER_BYTES
    ensures i < |results| ==> |results[i]| != CIPHER_BYTES
  {
    if results == [] then 0
    else if |results[0]| != CIPHER_BYTES then 0
    else 1 + FirstUndecryptable(results[1..])
  }

  /** The first index whose result is not 512 bytes long is the one `FirstUndecryptable` finds. */
  lemma {:induction false} FirstUndecryptableAt(results: seq<seq<u8>>, i: nat)
    requires i <= |results|
    requires forall j :: 0 <= j < i ==> |results[j]| == CIPHER_BYTES
    requires i < |results| ==> |results[i]| != CIPHER_BYTES
    ensures FirstUndecryptable(results) == i
  {
    if i > 0 {
      FirstUndecryptableAt(results[1..], i - 1);
    }
  }

  /** The decrypted values of the first `n` results, all 512 bytes long. */
  function DecodedValues(results: seq<seq<u8>>, n: nat): (values: seq<i64>)
    requires n <= |results| && forall j :: 0 <= j < n ==> |results[j]| == CIPHER_BYTES
    ensures |values| == n
  {
    seq(n, j requires 0 <= j < n => DecodedValue(results[j]))
  }

  /** One more 512-byte result adds its value to the decoded values and its line to the log. */
  lemma DecodedValuesStep(results: seq<seq<u8>>, n: nat)
    requires n < |results| && forall j :: 0 <= j <= n ==> |results[j]| == CIPHER_BYTES
    ensures DecodedValues(results, n + 1) == DecodedValues(results, n) + [DecodedValue(results[n])]
    ensures DecryptionLog(DecodedValues(results, n + 1)) ==
      DecryptionLog(DecodedValues(results, n)) + [ResultLine(n, DecodedValue(results[n]))]
  {
  }

  /** `format!("Result {}: decrypted to {}", i + 1, value)`. */
  function ResultLine(i: nat, value: i64): string {
    "Result " + NatToString(i + 1) + ": decrypted to " + IntToString(value)
  }

  /** `format!("Decryption failed for result {}: {}", i + 1, e)`. */
  function DecryptionFailedMessage(i: nat, e: string): string {
    "Decryption failed for result " + NatToString(i + 1) + ": " + e
  }

  /** `format!("FHE arithmetic mismatch: expected sum {}, got {}", expected, actual)`. */
  function MismatchMessage(expected: int, actual: int): string {
    "FHE arithmetic mismatch: expected sum " + IntToString(expected) + ", got " + IntToString(actual)
  }

  const RECEIPT_INVALID_RESULT := VerificationResult(false, Some("zkVM receipt validation failed"), None, ["RECEIPT_INVALID"])

  /** One log line per decrypted result, numbered from 1. */
  function DecryptionLog(values: seq<i64>): seq<string> {
    seq(|values|, j requires 0 <= j < |values| => ResultLine(j, values[j]))
  }

  const VERIFIED_LINE: string := "✅ FHE COMPUTATION VERIFIED: Homomorphic addition correct"
  const COMPLETE_LINE: string := "✅ PROOF COMPLETE: Real FHE operations occurred inside zkVM"

  /** The verdict `verify_zkvm_result` reaches, once the receipt check has answered `receiptValid`. */
  function Verdict(plaintexts: seq<i64>, receiptValid: bool, results: seq<seq<u8>>): VerificationResult {
    if !receiptValid then RECEIPT_INVALID_RESULT
    else
      var i := FirstUndecryptable(results);
      var values := DecodedValues(results, i);
      if i < |results| then
        VerificationResult(false, Some(DecryptionFailedMessage(i, LengthError(|results[i]|))), None, DecryptionLog(values))
      else if Sum(plaintexts) == Sum(values) then
        VerificationResult(true, None, Some(values), DecryptionLog(values) + [VERIFIED_LINE, COMPLETE_LINE])
      else
        VerificationResult(false, Some(MismatchMessage(Sum(plaintexts), Sum(values))), Some(values), DecryptionLog(values))
  }

  /**
   * A verification succeeds exactly when the receipt is valid, every result
   * is a 512-byte ciphertext, and the decrypted results add up to the sum of
   * the challenge plaintexts; it then reports those results and no error,
   * and every failure carries an error message. The decrypted results are
   * reported exactly when the receipt is valid and every result decrypts,
   * a sum mismatch included, and a failed decryption reports none.
   */
  lemma VerdictSucceeds(plaintexts: seq<i64>, receiptValid: bool, results: seq<seq<u8>>)
    ensures var v := Verdict(plaintexts, receiptValid, results);
      v.success <==>
        && receiptValid
        && (forall j :: 0 <= j < |results| ==> |results[j]| == CIPHER_BYTES)
        && Sum(plaintexts) == Sum(DecodedValues(results, |results|))
    ensures var v := Verdict(plaintexts, receiptValid, results);
      (v.success ==> v.error == None && v.decryptedResults == Some(DecodedValues(results, |results|)))
      && (!v.success ==> v.error.Some?)
    ensures var v := Verdict(plaintexts, receiptValid, results);
      (v.decryptedResults.Some? <==> receiptValid && forall j :: 0 <= j < |results| ==> |results[j]| == CIPHER_BYTES)
      && (v.decryptedResults.Some? ==> v.decryptedResults == Some(DecodedValues(results, |results|)))
  {
    if receiptValid && (forall j :: 0 <= j < |results| ==> |results[j]| == CIPHER_BYTES) {
      FirstUndecryptableAt(results, |results|);
    }
  }

  /**
   * `verify_zkvm_result`. The receipt check is the stub `VerifyReceipt`, so
   * its answer enters as `receiptValid`; the results are then decrypted in
   * order, the first undecryptable one ends the verification, and otherwise
   * the sums are compared.
   */
  method VerifyZkvmResult(challenger: ExternalChallenger, challengeInput: ChallengeInput, receiptValid: bool, resultCiphertexts: seq<seq<u8>>)
    returns (r: VerificationResult)
    ensures r == Verdict(challengeInput.challengeMetadata.challengePlaintexts, receiptValid, resultCiphertexts)
  {
    if !receiptValid {
      return RECEIPT_INVALID_RESULT;
    }
    var decryptedResults: seq<i64> := [];
    var verificationLog: seq<string> := [];
    for i := 0 to |resultCiphertexts|
      invariant forall j :: 0 <= j < i ==> |resultCiphertexts[j]| == CIPHER_BYTES
      invariant decryptedResults == DecodedValues(resultCiphertexts, i)
      invariant verificationLog == DecryptionLog(decryptedResults)
    {
      var decrypted := DeserializeAndDecrypt(resultCiphertexts[i]);
      match decrypted {
        case Ok(plaintext) =>
          DecodedValuesStep(resultCiphertexts, i);
          decryptedResults := decryptedResults + [plaintext];
          verificationLog := verificationLog + [ResultLine(i, plaintext)];
        case Err(e) =>
          FirstUndecryptableAt(resultCiphertexts, i);
          assert e == LengthError(|resultCiphertexts[i]|);
          return VerificationResult(false, Some(DecryptionFailedMessage(i, e)), None, verificationLog);
      }
    }
    FirstUndecryptableAt(resultCiphertexts, |resultCiphertexts|);
    var expectedSum := Sum(challengeInput.challengeMetadata.challengePlaintexts);
    var actualSum := Sum(decryptedResults);
    if expectedSum == actualSum {
      verificationLog := verificationLog + [VERIFIED_LINE, COMPLETE_LINE];
      r := VerificationResult(true, None, Some(decryptedResults), verificationLog);
    } else {
      r := VerificationResult(false, Some(MismatchMessage(expectedSum, actualSum)), Some(decryptedResults), verificationLog);
    }
  }

  // ---------------------------------------------------------------------
  // The protocol driver's simulated run

  /** The placeholder result ciphertexts of the driver: one all-zero 512-byte buffer per challenge ciphertext. */
  function SimulatedResults(n: nat): (results: seq<seq<u8>>)
    ensures |results| == n && forall j :: 0 <= j < n ==> |results[j]| == CIPHER_BYTES
  {
    seq(n, _ => seq(CIPHER_BYTES, _ => 0))
  }

  /** An all-zero buffer decrypts to 0. */
  lemma ZeroBufferDecryptsToZero(zeros: seq<u8>)
    requires |zeros| == CIPHER_BYTES && forall i :: 0 <= i < |zeros| ==> zeros[i] == 0
    ensures DecodedValue(zeros) == 0
  {
    FromLeOfZeros(zeros[..8]);
  }

  /** A sum of non-negative values is zero exactly when every value is. */
  lemma {:induction false} SumZeroIffAllZero(s: seq<int>)
    requires forall j :: 0 <= j < |s| ==> s[j] >= 0
    ensures Sum(s) >= 0
    ensures Sum(s) == 0 <==> forall j :: 0 <= j < |s| ==> s[j] == 0
  {
    if s != [] {
      SumZeroIffAllZero(s[..|s| - 1]);
      assert forall j :: 0 <= j < |s| - 1 ==> s[..|s| - 1][j] == s[j];
    }
  }

  /** The sum of a sequence of zeros is zero. */
  lemma {:induction false} SumOfZeros(s: seq<int>)
    requires forall j :: 0 <= j < |s| ==> s[j] == 0
    ensures Sum(s) == 0
  {
    if s != [] {
      SumOfZeros(s[..|s| - 1]);
    }
  }

  /** All-zero 512-byte buffers every one of which decrypts to 0: the placeholder results of the protocol drivers. */
  predicate ZeroResults(results: seq<seq<u8>>) {
    forall j :: 0 <= j < |results| ==> |results[j]| == CIPHER_BYTES && forall i :: 0 <= i < CIPHER_BYTES ==> results[j][i] == 0
  }

  /**
   * Placeholder results all decrypt to 0, so against challenge plaintexts
   * drawn from 0..3 a valid receipt with such results verifies exactly when
   * every drawn plaintext is 0, however many results there are.
   */
  lemma ZeroResultsVerdict(plaintexts: seq<i64>, results: seq<seq<u8>>)
    requires forall j :: 0 <= j < |plaintexts| ==> 0 <= plaintexts[j] < 3
    requires ZeroResults(results)
    ensures Verdict(plaintexts, true, results).success <==>
      forall j :: 0 <= j < |plaintexts| ==> plaintexts[j] == 0
  {
    var values := DecodedValues(results, |results|);
    forall j | 0 <= j < |values|
      ensures values[j] == 0
    {
      ZeroBufferDecryptsToZero(results[j]);
    }
    SumOfZeros(values);
    SumZeroIffAllZero(plaintexts);
    VerdictSucceeds(plaintexts, true, results);
  }

  /** The challenger's own driver submits one placeholder result per challenge ciphertext. */
  lemma SimulatedRunVerdict(plaintexts: seq<i64>)
    requires forall j :: 0 <= j < |plaintexts| ==> 0 <= plaintexts[j] < 3
    ensures Verdict(plaintexts, true, SimulatedResults(|plaintexts|)).success <==>
      forall j :: 0 <= j < |plaintexts| ==> plaintexts[j] == 0
  {
    ZeroResultsVerdict(plaintexts, SimulatedResults(|plaintexts|));
  }

  /**
   * `run_challenge_protocol`: build a challenger, create a five-vote
   * challenge, and verify the placeholder receipt and results against it.
   */
  method RunChallengeProtocol(secretDraws: seq<u64>, publicDraws: seq<u64>,
                              plaintextDraws: seq<i64>, noiseSamples: seq<u64>, coeffSamples: seq<seq<u64>>, timestamp: u64)
    returns (verification: VerificationResult)
    requires |secretDraws| == POLYNOMIAL_DEGREE && |publicDraws| == POLYNOMIAL_DEGREE
    requires forall i :: 0 <= i < POLYNOMIAL_DEGREE ==> secretDraws[i] < PLAINTEXT_MODULUS && publicDraws[i] < CIPHERTEXT_MODULUS
    requires |plaintextDraws| == 5 && |noiseSamples| == 5 && |coeffSamples| == 5
    requires forall i :: 0 <= i < 5 ==> 0 <= plaintextDraws[i] < 3 && |coeffSamples[i]| == CIPHER_WORDS - 1
    ensures verification.success <==> forall i :: 0 <= i < 5 ==> plaintextDraws[i] == 0
  {
    var challenger := NewChallenger(secretDraws, publicDraws);
    var challenge := CreateChallenge(challenger, "mathematical_proof_test", 5, plaintextDraws, noiseSamples, coeffSamples, timestamp);
    var simulatedReceipt: seq<u8> := seq(32, _ => 0);
    var simulatedResults := SimulatedResults(|challenge.challengeCiphertexts|);
    verification := VerifyZkvmResult(challenger, challenge, VerifyReceipt(simulatedReceipt), simulatedResults);
    SimulatedRunVerdict(plaintextDraws);
  }
}
