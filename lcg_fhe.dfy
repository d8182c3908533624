/**
 * The two standalone demonstrations of the toy scheme (`PROOF_OF_REAL_FHE.rs`
 * and `PROOF_OF_REAL_FHE_SIMPLE.rs`). They share the guest crate's ciphertext
 * layout, addition and decryption, but draw keys and noise from a linear
 * congruential generator on `u64` instead of a random-number generator, so
 * every ciphertext is a function of the runtime's seed and the plaintext.
 *
 * The two files differ only in where the noise chain of `encrypt` starts:
 * at `noise_seed + plaintext` in the simple version, at `noise_seed` alone
 * in the other one, so that there every ciphertext of the same runtime has
 * the same fifteen noise coefficients.
 */
module LcgFhe {
  import opened Words
  import opened ToyFhe
  import Arith

  const LCG_MULTIPLIER: u64 := 1103515245
  const LCG_INCREMENT: u64 := 12345
  /** The seed the key-dependency demonstration gives its second runtime. */
  const ALTERNATE_SEED: u64 := 54321

  /** One step `seed.wrapping_mul(1103515245).wrapping_add(12345)`. */
  function LcgStep(seed: u64): u64 {
    WrappingAdd(WrappingMul(seed, LCG_MULTIPLIER), LCG_INCREMENT)
  }

  /** The generator's state after `n` steps from `seed`. */
  function LcgIterate(seed: u64, n: nat): u64 {
    if n == 0 then seed else LcgStep(LcgIterate(seed, n - 1))
  }

  /** The eight states after the first, second, ... eighth step, reduced modulo `m`. */
  function KeyRow(seed: u64, m: nat): (r: KeyCoeffs)
    requires 0 < m <= U64_MODULUS
    ensures forall i :: 0 <= i < POLYNOMIAL_DEGREE ==> r[i] < m
  {
    seq(POLYNOMIAL_DEGREE, i requires 0 <= i < POLYNOMIAL_DEGREE => LcgIterate(seed, i + 1) % m)
  }

  /** The public key that `generate_keys` derives from the runtime's seed: eight states modulo 2^40. */
  function PublicKeyFromSeed(seed: u64): (pk: PublicKey)
    ensures Reduced(pk.keyData)
  {
    PublicKey(KeyRow(seed, CIPHERTEXT_MODULUS))
  }

  /** The private key that `generate_keys` derives from the same eight states, modulo 1024. */
  function PrivateKeyFromSeed(seed: u64): (sk: PrivateKey)
    ensures forall i :: 0 <= i < POLYNOMIAL_DEGREE ==> sk.secretData[i] < PLAINTEXT_MODULUS
  {
    PrivateKey(KeyRow(seed, PLAINTEXT_MODULUS))
  }

  /**
   * Both halves are read from the same generator states, and 1024 divides
   * 2^40, so every secret coefficient is the matching public coefficient
   * modulo 1024: the private key can be computed from the public key.
   */
  lemma PrivateKeyFromPublic(seed: u64)
    ensures forall i :: 0 <= i < POLYNOMIAL_DEGREE ==>
      PrivateKeyFromSeed(seed).secretData[i] == PublicKeyFromSeed(seed).keyData[i] % PLAINTEXT_MODULUS
  {
    forall i | 0 <= i < POLYNOMIAL_DEGREE
      ensures PrivateKeyFromSeed(seed).secretData[i] == PublicKeyFromSeed(seed).keyData[i] % PLAINTEXT_MODULUS
    {
      Arith.ModOfMod(LcgIterate(seed, i + 1), PLAINTEXT_MODULUS, 0x4000_0000);
    }
  }

  /**
   * `generate_keys` of both demonstrations: step the generator eight times
   * from the seed and keep each state modulo 1024 (secret) and modulo 2^40
   * (public).
   */
  method GenerateLcgKeys(noiseSeed: u64) returns (publicKey: PublicKey, privateKey: PrivateKey)
    ensures publicKey == PublicKeyFromSeed(noiseSeed) && privateKey == PrivateKeyFromSeed(noiseSeed)
  {
    var secretData := new u64[POLYNOMIAL_DEGREE];
    var keyData := new u64[POLYNOMIAL_DEGREE];
    var seed := noiseSeed;
    for i := 0 to POLYNOMIAL_DEGREE
      invariant seed == LcgIterate(noiseSeed, i)
      invariant secretData[..i] == KeyRow(noiseSeed, PLAINTEXT_MODULUS)[..i]
      invariant keyData[..i] == KeyRow(noiseSeed, CIPHERTEXT_MODULUS)[..i]
    {
      seed := LcgStep(seed);
      secretData[i] := seed % PLAINTEXT_MODULUS;
      keyData[i] := seed % CIPHERTEXT_MODULUS;
    }
    publicKey := PublicKey(keyData[..]);
    privateKey := PrivateKey(secretData[..]);
  }

  /** The fifteen noise coefficients: the states after steps 1..15 from `start`, modulo 2^40. */
  function NoiseChain(start: u64): (noise: seq<u64>)
    ensures ValidNoise(noise)
  {
    seq(CIPHER_WORDS - 1, i requires 0 <= i < CIPHER_WORDS - 1 => LcgIterate(start, i + 1) % CIPHERTEXT_MODULUS)
  }

  /** The residue `(plaintext.val as u64) % 1024` that both versions place in coefficient 0. */
  function Residue(plaintext: i64): (r: u64)
    ensures r == plaintext % PLAINTEXT_MODULUS
  {
    CastResidue(plaintext);
    AsU64(plaintext) % PLAINTEXT_MODULUS
  }

  /** The noise chain of the simple version starts at `noise_seed.wrapping_add(plaintext_val)`. */
  function SeededEncryption(noiseSeed: u64, plaintext: i64): Cipher {
    Encryption(plaintext, NoiseChain(WrappingAdd(noiseSeed, Residue(plaintext))))
  }

  /** The noise chain of the other version starts at `noise_seed` whatever the plaintext. */
  function FixedNoiseEncryption(noiseSeed: u64, plaintext: i64): Cipher {
    Encryption(plaintext, NoiseChain(noiseSeed))
  }

  /**
   * The encryption loop shared by both versions once the chain's start is
   * known: coefficient 0 holds the residue, coefficient `i` the generator
   * state after `i` steps from `start`, modulo 2^40.
   */
  method LcgEncrypt(plaintext: i64, start: u64) returns (c: Cipher)
    ensures c == Encryption(plaintext, NoiseChain(start))
  {
    var plaintextVal := Residue(plaintext);
    var ciphertextData := new u64[CIPHER_WORDS];
    ciphertextData[0] := plaintextVal;
    var noise := start;
    for i := 1 to CIPHER_WORDS
      invariant noise == LcgIterate(start, i - 1)
      invariant ciphertextData[..i] == ([plaintextVal] + NoiseChain(start))[..i]
    {
      noise := LcgStep(noise);
      ciphertextData[i] := noise % CIPHERTEXT_MODULUS;
    }
    c := Cipher(ciphertextData[..]);
    assert c.data == [plaintextVal] + NoiseChain(start);
  }

  /** Both versions decrypt their own ciphertexts to the plaintext residue, under any key. */
  lemma LcgEncryptionsDecrypt(noiseSeed: u64, plaintext: i64)
    ensures forall k :: Decrypt(SeededEncryption(noiseSeed, plaintext), k) == plaintext % PLAINTEXT_MODULUS
    ensures forall k :: Decrypt(FixedNoiseEncryption(noiseSeed, plaintext), k) == plaintext % PLAINTEXT_MODULUS
  {
  }

  /**
   * In the simple version one runtime gives two plaintexts the same
   * ciphertext exactly when they have the same residue modulo 1024.
   */
  lemma SeededEncryptionInjective(noiseSeed: u64, p1: i64, p2: i64)
    ensures SeededEncryption(noiseSeed, p1) == SeededEncryption(noiseSeed, p2) <==> p1 % PLAINTEXT_MODULUS == p2 % PLAINTEXT_MODULUS
  {
    if SeededEncryption(noiseSeed, p1) == SeededEncryption(noiseSeed, p2) {
      assert SeededEncryption(noiseSeed, p1).data[0] == SeededEncryption(noiseSeed, p2).data[0];
    }
  }

  /**
   * In the other version the noise does not depend on the plaintext: two
   * ciphertexts of one runtime differ at most in coefficient 0, which is
   * the plaintext residue itself.
   */
  lemma FixedNoiseSharesNoise(noiseSeed: u64, p1: i64, p2: i64)
    ensures FixedNoiseEncryption(noiseSeed, p1).data[1..] == FixedNoiseEncryption(noiseSeed, p2).data[1..]
    ensures FixedNoiseEncryption(noiseSeed, p1).data[0] == p1 % PLAINTEXT_MODULUS
  {
  }

  /**
   * The runtime of both demonstrations. `plaintextSeedsNoise` tells them
   * apart: it holds for `PROOF_OF_REAL_FHE_SIMPLE.rs`, whose noise chain
   * starts at `noise_seed + plaintext`, and not for `PROOF_OF_REAL_FHE.rs`,
   * whose chain starts at `noise_seed`.
   */
  class LcgRuntime {
    const plaintextSeedsNoise: bool
    var noiseSeed: u64

    /** `PureRustFheRuntime::new`: the seed 12345. */
    constructor (plaintextSeedsNoise: bool)
      ensures this.plaintextSeedsNoise == plaintextSeedsNoise && noiseSeed == DEFAULT_NOISE_SEED
    {
      this.plaintextSeedsNoise := plaintextSeedsNoise;
      noiseSeed := DEFAULT_NOISE_SEED;
    }

    /** Takes `&mut self` in the source but writes nothing: the seed is only read, so every call gives the same pair. */
    method GenerateKeys() returns (publicKey: PublicKey, privateKey: PrivateKey)
      ensures publicKey == PublicKeyFromSeed(noiseSeed) && privateKey == PrivateKeyFromSeed(noiseSeed)
    {
      publicKey, privateKey := GenerateLcgKeys(noiseSeed);
    }

    /** `encrypt`: the public key is not read. */
    method Encrypt(plaintext: i64, publicKey: PublicKey) returns (c: Cipher)
      ensures c == if plaintextSeedsNoise then SeededEncryption(noiseSeed, plaintext) else FixedNoiseEncryption(noiseSeed, plaintext)
      ensures forall k :: Decrypt(c, k) == plaintext % PLAINTEXT_MODULUS
    {
      var start := if plaintextSeedsNoise then WrappingAdd(noiseSeed, Residue(plaintext)) else noiseSeed;
      c := LcgEncrypt(plaintext, start);
    }
  }

  /** Encrypt `a` and `b`, add the ciphertexts and decrypt the sum. */
  method EncryptedSum(runtime: LcgRuntime, publicKey: PublicKey, privateKey: PrivateKey, a: i64, b: i64) returns (sum: i64)
    ensures sum == (a + b) % PLAINTEXT_MODULUS
  {
    var encryptedA := runtime.Encrypt(a, publicKey);
    var encryptedB := runtime.Encrypt(b, publicKey);
    var encryptedSum := Add(encryptedA, encryptedB);
    DecryptSum(encryptedA, encryptedB);
    sum := Decrypt(encryptedSum, privateKey);
    Arith.ModAdd(a, b, PLAINTEXT_MODULUS);
  }

  /** The `(a, b, expected)` rows of the arbitrary-addition demonstration. */
  const ADDITION_CASES: seq<(i64, i64, i64)> := [(5, 3, 8), (15, 7, 22), (42, 13, 55), (0, 9, 9), (100, 200, 300)]

  /**
   * Test 1 of either version: each pair is encrypted, added as ciphertexts
   * and decrypted; the demonstration panics on any row whose result is not
   * the expected sum. Every row passes.
   */
  method ArbitraryAdditionScenario(plaintextSeedsNoise: bool) returns (decryptedSums: seq<i64>)
    ensures |decryptedSums| == |ADDITION_CASES|
    ensures forall n :: 0 <= n < |ADDITION_CASES| ==> decryptedSums[n] == ADDITION_CASES[n].2
  {
    var runtime := new LcgRuntime(plaintextSeedsNoise);
    var publicKey, privateKey := runtime.GenerateKeys();
    decryptedSums := [];
    for n := 0 to |ADDITION_CASES|
      invariant |decryptedSums| == n
      invariant forall m :: 0 <= m < n ==> decryptedSums[m] == (ADDITION_CASES[m].0 + ADDITION_CASES[m].1) % PLAINTEXT_MODULUS
    {
      var (a, b, _) := ADDITION_CASES[n];
      var sum := EncryptedSum(runtime, publicKey, privateKey, a, b);
      decryptedSums := decryptedSums + [sum];
    }
  }

  /** Test 2 of the simple version: 5 and 7 give different ciphertexts, decrypting to 5 and 7. */
  method DistinctPlaintextsScenario() returns (sameCiphertext: bool, decrypted5: i64, decrypted7: i64)
    ensures !sameCiphertext && decrypted5 == 5 && decrypted7 == 7
  {
    var runtime := new LcgRuntime(true);
    var publicKey, privateKey := runtime.GenerateKeys();
    var encrypted5 := runtime.Encrypt(5, publicKey);
    var encrypted7 := runtime.Encrypt(7, publicKey);
    sameCiphertext := encrypted5.data == encrypted7.data;
    SeededEncryptionInjective(runtime.noiseSeed, 5, 7);
    decrypted5 := Decrypt(encrypted5, privateKey);
    decrypted7 := Decrypt(encrypted7, privateKey);
  }

  /**
   * Test 2 of the other version: encrypting 42 twice gives identical
   * ciphertexts, so its "deterministic" warning branch is the one taken;
   * both decrypt to 42.
   */
  method RepeatedPlaintextScenario() returns (sameCiphertext: bool, decrypted1: i64, decrypted2: i64)
    ensures sameCiphertext && decrypted1 == 42 && decrypted2 == 42
  {
    var runtime := new LcgRuntime(false);
    var publicKey, privateKey := runtime.GenerateKeys();
    var encrypted1 := runtime.Encrypt(42, publicKey);
    var encrypted2 := runtime.Encrypt(42, publicKey);
    sameCiphertext := encrypted1.data == encrypted2.data;
    decrypted1 := Decrypt(encrypted1, privateKey);
    decrypted2 := Decrypt(encrypted2, privateKey);
  }

  /** The first secret coefficient drawn from the seed 12345 is 638, and from the seed 54321 it is 790. */
  lemma FirstSecretCoefficients()
    ensures PrivateKeyFromSeed(DEFAULT_NOISE_SEED).secretData[0] == 638
    ensures PrivateKeyFromSeed(ALTERNATE_SEED).secretData[0] == 790
  {
    assert LcgIterate(DEFAULT_NOISE_SEED, 1) == 13622895711870 == 13303609093 * 1024 + 638;
    assert LcgIterate(ALTERNATE_SEED, 1) == 59944051635990 == 58539112925 * 1024 + 790;
  }

  /**
   * Test 3 of either version: a second runtime with seed 54321 yields a
   * second key pair, yet decrypting 17 with the wrong private key still
   * gives 17, so the "weak security" warning branch is the one taken.
   */
  method KeyDependencyScenario(plaintextSeedsNoise: bool) returns (correctDecryption: i64, wrongDecryption: i64, keysDiffer: bool)
    ensures correctDecryption == 17 && wrongDecryption == 17
    ensures keysDiffer
  {
    var runtime1 := new LcgRuntime(plaintextSeedsNoise);
    var runtime2 := new LcgRuntime(plaintextSeedsNoise);
    var publicKey1, privateKey1 := runtime1.GenerateKeys();
    runtime2.noiseSeed := ALTERNATE_SEED;
    var publicKey2, privateKey2 := runtime2.GenerateKeys();
    var encryptedWithKey1 := runtime1.Encrypt(17, publicKey1);
    wrongDecryption := Decrypt(encryptedWithKey1, privateKey2);
    correctDecryption := Decrypt(encryptedWithKey1, privateKey1);
    keysDiffer := privateKey1 != privateKey2;
    FirstSecretCoefficients();
  }

  /** Entry `j` of a ballot row. */
  function Entry(row: (i64, i64, i64), j: nat): i64
    requires j < 3
  {
    if j == 0 then row.0 else if j == 1 then row.1 else row.2
  }

  /** The plain total of column `j` that the demonstration accumulates beside the encrypted tallies. */
  function ColumnSum(rows: seq<(i64, i64, i64)>, j: nat): int
    requires j < 3
  {
    if rows == [] then 0 else ColumnSum(rows[..|rows| - 1], j) + Entry(rows[|rows| - 1], j)
  }

  /** Each row is one ballot: 0 or 1 for each of the three candidates. */
  predicate Ballots(rows: seq<(i64, i64, i64)>) {
    forall n :: 0 <= n < |rows| ==> rows[n].0 in {0, 1} && rows[n].1 in {0, 1} && rows[n].2 in {0, 1}
  }

  /** A column of ballots adds up to at most the number of rows. */
  lemma {:induction false} ColumnSumBounds(rows: seq<(i64, i64, i64)>, j: nat)
    requires j < 3 && Ballots(rows)
    ensures 0 <= ColumnSum(rows, j) <= |rows|
  {
    if rows != [] {
      ColumnSumBounds(rows[..|rows| - 1], j);
    }
  }

  /** Adding row `n` to the running column total; the total stays a valid plaintext. */
  lemma ColumnSumStep(rows: seq<(i64, i64, i64)>, n: nat, j: nat)
    requires j < 3 && Ballots(rows) && n < |rows| < PLAINTEXT_MODULUS
    ensures ColumnSum(rows[..n + 1], j) == ColumnSum(rows[..n], j) + Entry(rows[n], j)
    ensures 0 <= ColumnSum(rows[..n + 1], j) < PLAINTEXT_MODULUS
  {
    assert rows[..n + 1][..n] == rows[..n];
    ColumnSumBounds(rows[..n + 1], j);
  }

  /** Alice 1, Bob 2, Charlie 1, David 3, Eve 2, Frank 1. */
  const VOTING_ROWS: seq<(i64, i64, i64)> := [(1, 0, 0), (0, 1, 0), (1, 0, 0), (0, 0, 1), (0, 1, 0), (1, 0, 0)]

  /** One step of test 1 and test 4: encrypt `vote` and add it to `tally` as ciphertexts. */
  method EncryptAndAdd(runtime: LcgRuntime, publicKey: PublicKey, tally: Cipher, vote: i64) returns (updated: Cipher)
    ensures forall k :: Decrypt(updated, k) == (Decrypt(tally, k) + vote) % PLAINTEXT_MODULUS
  {
    var encryptedVote := runtime.Encrypt(vote, publicKey);
    DecryptSum(tally, encryptedVote);
    updated := Add(tally, encryptedVote);
    forall k ensures Decrypt(updated, k) == (Decrypt(tally, k) + vote) % PLAINTEXT_MODULUS {
      assert Decrypt(encryptedVote, k) == vote % PLAINTEXT_MODULUS;
      Arith.ModAddResidue(Decrypt(tally, k), vote, PLAINTEXT_MODULUS);
    }
  }

  /**
   * Test 4 of both versions, for any list of ballots shorter than 1024:
   * three tallies start as encryptions of 0, each ballot's three entries are
   * encrypted and added to them, and the decrypted tallies equal the
   * plain column sums the demonstration accumulates beside them.
   */
  method VotingHomomorphism(runtime: LcgRuntime, rows: seq<(i64, i64, i64)>) returns (finals: (i64, i64, i64), expected: (int, int, int))
    requires Ballots(rows) && |rows| < PLAINTEXT_MODULUS
    ensures expected == (ColumnSum(rows, 0), ColumnSum(rows, 1), ColumnSum(rows, 2))
    ensures finals.0 == expected.0 && finals.1 == expected.1 && finals.2 == expected.2
  {
    var publicKey, privateKey := runtime.GenerateKeys();
    var tally1 := runtime.Encrypt(0, publicKey);
    var tally2 := runtime.Encrypt(0, publicKey);
    var tally3 := runtime.Encrypt(0, publicKey);
    var expected1, expected2, expected3 := 0, 0, 0;
    for n := 0 to |rows|
      invariant expected1 == ColumnSum(rows[..n], 0) && expected2 == ColumnSum(rows[..n], 1) && expected3 == ColumnSum(rows[..n], 2)
      invariant Decrypt(tally1, privateKey) == expected1
      invariant Decrypt(tally2, privateKey) == expected2
      invariant Decrypt(tally3, privateKey) == expected3
    {
      ColumnSumStep(rows, n, 0);
      ColumnSumStep(rows, n, 1);
      ColumnSumStep(rows, n, 2);
      var (vote1, vote2, vote3) := rows[n];
      tally1 := EncryptAndAdd(runtime, publicKey, tally1, vote1);
      tally2 := EncryptAndAdd(runtime, publicKey, tally2, vote2);
      tally3 := EncryptAndAdd(runtime, publicKey, tally3, vote3);
      expected1, expected2, expected3 := expected1 + vote1, expected2 + vote2, expected3 + vote3;
    }
    assert rows[..|rows|] == rows;
    finals := (Decrypt(tally1, privateKey), Decrypt(tally2, privateKey), Decrypt(tally3, privateKey));
    expected := (expected1, expected2, expected3);
  }

  /** The demonstration's six ballots tally to 3, 2 and 1. */
  lemma VotingRowsTally()
    ensures Ballots(VOTING_ROWS)
    ensures ColumnSum(VOTING_ROWS, 0) == 3 && ColumnSum(VOTING_ROWS, 1) == 2 && ColumnSum(VOTING_ROWS, 2) == 1
  {
    var r: seq<(i64, i64, i64)> := VOTING_ROWS;
    assert r[..1][..0] == r[..0] && |r[..0]| == 0;
    assert (ColumnSum(r[..1], 0), ColumnSum(r[..1], 1), ColumnSum(r[..1], 2)) == (1, 0, 0);
    assert r[..2][..1] == r[..1];
    assert (ColumnSum(r[..2], 0), ColumnSum(r[..2], 1), ColumnSum(r[..2], 2)) == (1, 1, 0);
    assert r[..3][..2] == r[..2];
    assert (ColumnSum(r[..3], 0), ColumnSum(r[..3], 1), ColumnSum(r[..3], 2)) == (2, 1, 0);
    assert r[..4][..3] == r[..3];
    assert (ColumnSum(r[..4], 0), ColumnSum(r[..4], 1), ColumnSum(r[..4], 2)) == (2, 1, 1);
    assert r[..5][..4] == r[..4];
    assert (ColumnSum(r[..5], 0), ColumnSum(r[..5], 1), ColumnSum(r[..5], 2)) == (2, 2, 1);
    assert r[..6][..5] == r[..5] && r[..6] == r;
  }

  /** Test 4 of either version on its six ballots: the decrypted tallies are 3, 2 and 1. */
  method VotingScenario(plaintextSeedsNoise: bool) returns (finals: (i64, i64, i64))
    ensures finals == (3, 2, 1)
  {
    var runtime := new LcgRuntime(plaintextSeedsNoise);
    VotingRowsTally();
    var tallies, _ := VotingHomomorphism(runtime, VOTING_ROWS);
    finals := tallies;
  }
}
