/**
 * The toy additive scheme of the guest crate (`pure_rust_fhe.rs`).
 *
 * A ciphertext is 16 `u64` coefficients. Encryption writes the plaintext,
 * reduced modulo 1024, into coefficient 0 and fills coefficients 1..15 with
 * random values below 2^40; the keys are never consulted. Decryption is
 * coefficient 0 modulo 1024. Addition is coefficient-wise modulo 2^40, and
 * because 1024 divides 2^40 decryption turns it into addition modulo 1024.
 */
module ToyFhe {
  import opened Wrappers
  import opened Words
  import Arith

  const PLAINTEXT_MODULUS: nat := 1024
  const CIPHERTEXT_MODULUS: nat := 0x100_0000_0000
  const POLYNOMIAL_DEGREE: nat := 8
  const CIPHER_WORDS: nat := 16
  const CIPHER_BYTES: nat := 128
  const DEFAULT_NOISE_SEED: u64 := 12345

  type Coeffs = s: seq<u64> | |s| == 16 witness seq(16, _ => 0)
  type KeyCoeffs = s: seq<u64> | |s| == 8 witness seq(8, _ => 0)

  datatype Cipher = Cipher(data: Coeffs)
  datatype PublicKey = PublicKey(keyData: KeyCoeffs)
  datatype PrivateKey = PrivateKey(secretData: KeyCoeffs)

  /** Every coefficient lies below the ciphertext modulus 2^40. */
  predicate Reduced(s: seq<u64>) {
    forall i :: 0 <= i < |s| ==> s[i] < CIPHERTEXT_MODULUS
  }

  /** The fifteen random coefficients that one encryption draws. */
  predicate ValidNoise(noise: seq<u64>) {
    |noise| == CIPHER_WORDS - 1 && Reduced(noise)
  }

  /** The ranges `generate_keys` draws from: secret below 1024, public below 2^40. */
  predicate KeyPairInRange(publicKey: PublicKey, privateKey: PrivateKey) {
    && Reduced(publicKey.keyData)
    && forall i :: 0 <= i < POLYNOMIAL_DEGREE ==> privateKey.secretData[i] < PLAINTEXT_MODULUS
  }

  /** Coefficient-wise sum modulo 2^40: what `a + b` means for two ciphertexts. */
  function Sum(a: Cipher, b: Cipher): (r: Cipher)
    ensures Reduced(r.data)
  {
    Cipher(seq(CIPHER_WORDS, i requires 0 <= i < CIPHER_WORDS => (a.data[i] + b.data[i]) % CIPHERTEXT_MODULUS))
  }

  lemma SumCommutes(a: Cipher, b: Cipher)
    ensures Sum(a, b) == Sum(b, a)
  {
  }

  /** A `u64` sum that wraps and is then reduced modulo 2^40 equals the exact sum reduced modulo 2^40. */
  lemma WrapThenReduce(x: u64, y: u64)
    ensures WrappingAdd(x, y) % CIPHERTEXT_MODULUS == (x + y) % CIPHERTEXT_MODULUS
  {
    Arith.ModOfMod(x + y, CIPHERTEXT_MODULUS, 0x100_0000);
  }

  /**
   * `impl Add for Cipher<Signed>`: a zeroed array whose entry `i` becomes
   * `(self[i] + other[i]) % 2^40`, the `u64` addition wrapping as in a
   * release build.
   */
  method Add(a: Cipher, b: Cipher) returns (r: Cipher)
    ensures r == Sum(a, b)
  {
    var resultData := new u64[CIPHER_WORDS];
    for i := 0 to CIPHER_WORDS
      invariant forall j :: 0 <= j < i ==> resultData[j] == (a.data[j] + b.data[j]) % CIPHERTEXT_MODULUS
    {
      WrapThenReduce(a.data[i], b.data[i]);
      resultData[i] := WrappingAdd(a.data[i], b.data[i]) % CIPHERTEXT_MODULUS;
    }
    r := Cipher(resultData[..]);
  }

  /** `decrypt`: coefficient 0 modulo 1024. The key is not used and the result is always `Ok`. */
  function Decrypt(c: Cipher, privateKey: PrivateKey): (r: i64)
    ensures 0 <= r < PLAINTEXT_MODULUS
  {
    c.data[0] % PLAINTEXT_MODULUS
  }

  /** Decryption reads no key: any two keys decrypt a ciphertext to the same value. */
  lemma DecryptIgnoresKey(c: Cipher, k1: PrivateKey, k2: PrivateKey)
    ensures Decrypt(c, k1) == Decrypt(c, k2)
  {
  }

  /** Homomorphism: decrypting a sum gives the sum of the decryptions modulo 1024. */
  lemma DecryptSum(a: Cipher, b: Cipher)
    ensures forall k :: Decrypt(Sum(a, b), k) == (Decrypt(a, k) + Decrypt(b, k)) % PLAINTEXT_MODULUS
  {
    var x: int, y: int := a.data[0], b.data[0];
    Arith.ModOfMod(x + y, PLAINTEXT_MODULUS, 0x4000_0000);
    Arith.ModAdd(x, y, PLAINTEXT_MODULUS);
  }

  /** `(plaintext.val as u64) % 1024` is the non-negative residue of the plaintext, also for negative values. */
  lemma CastResidue(v: i64)
    ensures AsU64(v) % PLAINTEXT_MODULUS == v % PLAINTEXT_MODULUS
  {
    Arith.ModOfMod(v, PLAINTEXT_MODULUS, 0x40_0000_0000_0000);
  }

  /** The ciphertext that `encrypt` builds from a plaintext and the fifteen drawn coefficients. */
  function Encryption(plaintext: i64, noise: seq<u64>): (c: Cipher)
    requires ValidNoise(noise)
    ensures Reduced(c.data)
    ensures forall k :: Decrypt(c, k) == plaintext % PLAINTEXT_MODULUS
  {
    CastResidue(plaintext);
    Cipher([AsU64(plaintext) % PLAINTEXT_MODULUS] + noise)
  }

  /**
   * `encrypt`: coefficient 0 is the plaintext residue, coefficients 1..15 are
   * filled in a loop from the random draws in `noise`. Neither the public key
   * nor the runtime's state is read, and the result is always `Ok`.
   */
  method Encrypt(plaintext: i64, publicKey: PublicKey, noise: seq<u64>) returns (c: Cipher)
    requires ValidNoise(noise)
    ensures c == Encryption(plaintext, noise)
    ensures c.data[0] == plaintext % PLAINTEXT_MODULUS && c.data[1..] == noise
  {
    var ciphertextData := new u64[CIPHER_WORDS];
    CastResidue(plaintext);
    ciphertextData[0] := AsU64(plaintext) % PLAINTEXT_MODULUS;
    for i := 1 to CIPHER_WORDS
      invariant ciphertextData[0] == plaintext % PLAINTEXT_MODULUS
      invariant forall j :: 1 <= j < i ==> ciphertextData[j] == noise[j - 1]
    {
      ciphertextData[i] := noise[i - 1];
    }
    c := Cipher(ciphertextData[..]);
    assert c.data[1..] == noise;
  }

  /** `generate_keys` without the stores into the runtime: copy eight secret and eight public draws into the two key arrays. */
  method SampleKeys(secretDraws: seq<u64>, publicDraws: seq<u64>) returns (publicKey: PublicKey, privateKey: PrivateKey)
    requires |secretDraws| == POLYNOMIAL_DEGREE && |publicDraws| == POLYNOMIAL_DEGREE
    requires forall i :: 0 <= i < POLYNOMIAL_DEGREE ==> secretDraws[i] < PLAINTEXT_MODULUS
    requires Reduced(publicDraws)
    ensures KeyPairInRange(publicKey, privateKey)
    ensures publicKey.keyData == publicDraws && privateKey.secretData == secretDraws
  {
    var secretData := new u64[POLYNOMIAL_DEGREE];
    var keyData := new u64[POLYNOMIAL_DEGREE];
    for i := 0 to POLYNOMIAL_DEGREE
      invariant secretData[..i] == secretDraws[..i]
      invariant keyData[..i] == publicDraws[..i]
    {
      secretData[i] := secretDraws[i];
      keyData[i] := publicDraws[i];
    }
    assert secretData[..] == secretDraws && keyData[..] == publicDraws;
    publicKey := PublicKey(keyData[..]);
    privateKey := PrivateKey(secretData[..]);
  }

  /** The runtime of the guest crate: optional stored keys and a noise seed that this version never reads. */
  class PureRustFheRuntime {
    var publicKey: Option<PublicKey>
    var privateKey: Option<PrivateKey>
    var noiseSeed: u64

    /** `new`: no keys yet and the fixed seed 12345. */
    constructor ()
      ensures publicKey == None && privateKey == None && noiseSeed == DEFAULT_NOISE_SEED
    {
      publicKey := None;
      privateKey := None;
      noiseSeed := DEFAULT_NOISE_SEED;
    }

    /** `generate_keys`: draw a key pair, store copies of both halves and return them. */
    method GenerateKeys(secretDraws: seq<u64>, publicDraws: seq<u64>) returns (pk: PublicKey, sk: PrivateKey)
      requires |secretDraws| == POLYNOMIAL_DEGREE && |publicDraws| == POLYNOMIAL_DEGREE
      requires forall i :: 0 <= i < POLYNOMIAL_DEGREE ==> secretDraws[i] < PLAINTEXT_MODULUS
      requires Reduced(publicDraws)
      modifies this
      ensures KeyPairInRange(pk, sk)
      ensures pk.keyData == publicDraws && sk.secretData == secretDraws
      ensures publicKey == Some(pk) && privateKey == Some(sk) && noiseSeed == old(noiseSeed)
    {
      pk, sk := SampleKeys(secretDraws, publicDraws);
      publicKey := Some(pk);
      privateKey := Some(sk);
    }
  }

  /**
   * `Cipher::serialize`: 128 bytes, each coefficient as eight little-endian bytes in index order.
   * `Challenger.SerializeCiphertext` is the challenger's counterpart, over 64 coefficients.
   */
  method Serialize(c: Cipher) returns (bytes: seq<u8>)
    ensures bytes == Encode(c.data) && |bytes| == CIPHER_BYTES
  {
    bytes := SerializeWords(c.data);
  }

  /** What `deserialize_ciphertext` returns for `data`. */
  function Deserialized(data: seq<u8>): (r: Result<Cipher, string>)
    ensures r.Err? <==> |data| != CIPHER_BYTES
  {
    if |data| != CIPHER_BYTES then Err("Invalid ciphertext length")
    else Ok(Cipher(Decode(data, CIPHER_WORDS)))
  }

  /** `deserialize_ciphertext`: reject any length but 128, otherwise read sixteen little-endian coefficients. */
  method DeserializeCiphertext(data: seq<u8>) returns (r: Result<Cipher, string>)
    ensures r == Deserialized(data)
    ensures r.Err? <==> |data| != CIPHER_BYTES
    ensures r.Ok? ==> Encode(r.value.data) == data
  {
    if |data| != CIPHER_BYTES {
      return Err("Invalid ciphertext length");
    }
    var coeffs := DeserializeWords(data, CIPHER_WORDS);
    r := Ok(Cipher(coeffs));
  }

  /** Deserialising a serialised ciphertext gives back the same coefficients. */
  lemma DeserializeSerialized(c: Cipher)
    ensures Deserialized(Encode(c.data)) == Ok(c)
  {
    DecodeEncode(c.data);
  }

  /** Every 128-byte input deserialises, and serialising the result gives back the input. */
  lemma SerializeDeserialized(data: seq<u8>)
    requires |data| == CIPHER_BYTES
    ensures Deserialized(data).Ok? && Encode(Deserialized(data).value.data) == data
  {
    EncodeDecode(data, CIPHER_WORDS);
  }

  /** `homomorphic_add`: the one-element vector holding `current_tally + vote`. */
  function HomomorphicAdd(currentTally: Cipher, vote: Cipher, publicKey: PublicKey): (r: Result<seq<Cipher>, string>)
    ensures r.Ok? && |r.value| == 1
    ensures forall k :: Decrypt(r.value[0], k) == (Decrypt(currentTally, k) + Decrypt(vote, k)) % PLAINTEXT_MODULUS
  {
    DecryptSum(currentTally, vote);
    Ok([Sum(currentTally, vote)])
  }

  /** The `test_basic_fhe_operations` unit test: 5 and 3 encrypted, added and decrypted give 8. */
  method BasicOperationsScenario(secretDraws: seq<u64>, publicDraws: seq<u64>, noise1: seq<u64>, noise2: seq<u64>)
    returns (resultPlain: i64)
    requires |secretDraws| == POLYNOMIAL_DEGREE && |publicDraws| == POLYNOMIAL_DEGREE
    requires forall i :: 0 <= i < POLYNOMIAL_DEGREE ==> secretDraws[i] < PLAINTEXT_MODULUS
    requires Reduced(publicDraws) && ValidNoise(noise1) && ValidNoise(noise2)
    ensures resultPlain == 8
  {
    var runtime := new PureRustFheRuntime();
    var publicKey, privateKey := runtime.GenerateKeys(secretDraws, publicDraws);
    var ciphertext1 := Encrypt(5, publicKey, noise1);
    var ciphertext2 := Encrypt(3, publicKey, noise2);
    var resultCipher := Add(ciphertext1, ciphertext2);
    DecryptSum(ciphertext1, ciphertext2);
    resultPlain := Decrypt(resultCipher, privateKey);
  }

  /** The `test_serialization` unit test: an encryption of 42 survives serialise-then-deserialise. */
  method SerializationScenario(secretDraws: seq<u64>, publicDraws: seq<u64>, noise: seq<u64>)
    returns (ciphertext: Cipher, deserialized: Result<Cipher, string>)
    requires |secretDraws| == POLYNOMIAL_DEGREE && |publicDraws| == POLYNOMIAL_DEGREE
    requires forall i :: 0 <= i < POLYNOMIAL_DEGREE ==> secretDraws[i] < PLAINTEXT_MODULUS
    requires Reduced(publicDraws) && ValidNoise(noise)
    ensures deserialized == Ok(ciphertext)
  {
    var runtime := new PureRustFheRuntime();
    var publicKey, _ := runtime.GenerateKeys(secretDraws, publicDraws);
    ciphertext := Encrypt(42, publicKey, noise);
    var serialized := Serialize(ciphertext);
    DeserializeSerialized(ciphertext);
    deserialized := DeserializeCiphertext(serialized);
  }
}
