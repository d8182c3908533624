/**
 * The voter-side client of the host (`host/src/fhe_client.rs`). It carries
 * its own copy of the toy scheme, whose key generation and encryption are
 * the guest crate's (random key coefficients, the plaintext residue in
 * coefficient 0, fifteen random coefficients below 2^40), and turns a
 * ballot choice into three serialised encryptions: a one-hot vote vector.
 */
module HostClient {
  import opened Words
  import opened Wrappers
  import opened Votes
  import opened ToyFhe

  /** The client keeps its runtime (only a noise seed that is never read) and the public key; the private key is dropped. */
  datatype FheClient = FheClient(noiseSeed: u64, publicKey: PublicKey)

  /** `FheClient::new`: a fresh runtime draws a key pair and only its public half is kept. */
  method NewClient(secretDraws: seq<u64>, publicDraws: seq<u64>) returns (client: FheClient)
    requires |secretDraws| == POLYNOMIAL_DEGREE && |publicDraws| == POLYNOMIAL_DEGREE
    requires forall i :: 0 <= i < POLYNOMIAL_DEGREE ==> secretDraws[i] < PLAINTEXT_MODULUS
    requires Reduced(publicDraws)
    ensures client.noiseSeed == DEFAULT_NOISE_SEED
    ensures client.publicKey.keyData == publicDraws && Reduced(client.publicKey.keyData)
  {
    var runtime := new PureRustFheRuntime();
    var publicKey, _ := runtime.GenerateKeys(secretDraws, publicDraws);
    client := FheClient(runtime.noiseSeed, publicKey);
  }

  /** The plaintext vote vector for a choice: 1 for the chosen candidate, 0 for the other two. */
  function VoteVector(choice: VoteOption): (v: seq<i64>)
    ensures |v| == 3 && v[choice.Number() - 1] == 1
    ensures forall i :: 0 <= i < 3 && i != choice.Number() - 1 ==> v[i] == 0
  {
    seq(3, i requires 0 <= i < 3 => if i == choice.Number() - 1 then 1 else 0)
  }

  /** Distinct choices give distinct vote vectors. */
  lemma VoteVectorInjective(c1: VoteOption, c2: VoteOption)
    requires VoteVector(c1) == VoteVector(c2)
    ensures c1 == c2
  {
    assert VoteVector(c2)[c1.Number() - 1] == 1;
  }

  /** The 128 bytes of the encryption of `plaintext` under the drawn coefficients `noise`. */
  function SerializedEncryption(plaintext: i64, noise: seq<u64>): (bytes: seq<u8>)
    requires ValidNoise(noise)
    ensures |bytes| == CIPHER_BYTES
    ensures Deserialized(bytes) == Ok(Encryption(plaintext, noise))
  {
    DeserializeSerialized(Encryption(plaintext, noise));
    Encode(Encryption(plaintext, noise).data)
  }

  /** The serialised encryption of each vote-vector entry under that candidate's noise. */
  function EncryptedVoteVector(voteChoice: VoteOption, noise: seq<seq<u64>>): (r: seq<seq<u8>>)
    requires |noise| == 3 && forall i :: 0 <= i < 3 ==> ValidNoise(noise[i])
    ensures |r| == 3
  {
    seq(3, i requires 0 <= i < 3 => SerializedEncryption(VoteVector(voteChoice)[i], noise[i]))
  }

  /**
   * Every entry of an encrypted vote vector deserialises, and decrypts under
   * any key to the matching entry of the one-hot vote vector: 1 for the
   * chosen candidate and 0 for the others.
   */
  lemma EncryptedVoteVectorDecrypts(voteChoice: VoteOption, noise: seq<seq<u64>>, k: PrivateKey)
    requires |noise| == 3 && forall i :: 0 <= i < 3 ==> ValidNoise(noise[i])
    ensures forall i :: 0 <= i < 3 ==> Deserialized(EncryptedVoteVector(voteChoice, noise)[i]).Ok?
    ensures forall i :: 0 <= i < 3 ==>
      Decrypt(Deserialized(EncryptedVoteVector(voteChoice, noise)[i]).value, k) == (if i == voteChoice.Number() - 1 then 1 else 0)
  {
    var r := EncryptedVoteVector(voteChoice, noise);
    var v := VoteVector(voteChoice);
    forall i | 0 <= i < 3
      ensures Deserialized(r[i]).Ok? && Decrypt(Deserialized(r[i]).value, k) == (if i == voteChoice.Number() - 1 then 1 else 0)
    {
      assert r[i] == SerializedEncryption(v[i], noise[i]);
      EntryDecrypts(v[i], noise[i], k);
    }
  }

  /** One serialised encryption deserialises and decrypts to the plaintext residue. */
  lemma EntryDecrypts(plaintext: i64, noise: seq<u64>, k: PrivateKey)
    requires ValidNoise(noise)
    ensures Deserialized(SerializedEncryption(plaintext, noise)).Ok?
    ensures Decrypt(Deserialized(SerializedEncryption(plaintext, noise)).value, k) == plaintext % PLAINTEXT_MODULUS
  {
  }

  /** Encrypt one vote-vector entry with the client's runtime and serialise the ciphertext. */
  method EncryptEntry(client: FheClient, voteValue: i64, noise: seq<u64>) returns (serialized: seq<u8>)
    requires ValidNoise(noise)
    ensures serialized == SerializedEncryption(voteValue, noise)
  {
    var ciphertext := Encrypt(voteValue, client.publicKey, noise);
    serialized := Serialize(ciphertext);
  }

  /**
   * `encrypt_vote_vector`: for candidates 0, 1, 2 encrypt the vote-vector
   * entry with that candidate's fifteen random coefficients, serialise the
   * ciphertext and append it.
   */
  method EncryptVoteVector(client: FheClient, voteChoice: VoteOption, noise: seq<seq<u64>>) returns (encryptedVector: seq<seq<u8>>)
    requires |noise| == 3 && forall i :: 0 <= i < 3 ==> ValidNoise(noise[i])
    ensures encryptedVector == EncryptedVoteVector(voteChoice, noise)
  {
    ghost var expected := EncryptedVoteVector(voteChoice, noise);
    encryptedVector := [];
    for candidateIdx := 0 to 3
      invariant encryptedVector == expected[..candidateIdx]
    {
      var voteValue: i64 := if candidateIdx == voteChoice.Number() - 1 then 1 else 0;
      assert voteValue == VoteVector(voteChoice)[candidateIdx];
      var serialized := EncryptEntry(client, voteValue, noise[candidateIdx]);
      encryptedVector := encryptedVector + [serialized];
    }
    assert expected[..3] == expected;
  }
}
