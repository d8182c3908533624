# FHE-zkVM voting demo — a Dafny model

This project models the integer core of the FHE-zkVM voting demonstration. That core has five parts:

- **The toy "FHE" scheme of the guest crate.**
  - A ciphertext is sixteen `u64` coefficients.
  - Encryption puts `plaintext mod 1024` in coefficient 0 and noise below 2^40 in the other fifteen.
  - Addition is coefficient-wise modulo 2^40. Decryption is coefficient 0 modulo 1024, whatever the key.
  - Ciphertexts are serialised as 128 little-endian bytes.
- **The scheme's copies.** These are the voter client, and the two standalone demonstrations whose keys and noise come from a linear congruential generator on `u64`.
- **The external challenger.** It encodes `m·Δ + noise` with q = 2^58, t = 65537 and Δ = ⌊q/t⌋, serialises ciphertexts as 512 bytes, and verifies results by comparing sums of decrypted values.
- **The guest tally and the host's check.**
  - The guest adds an encryption of 1 to the tally of each vote's option, decrypts the three tallies and hashes the counts.
  - The host re-counts the votes and compares.
- **The protocol driver and the output parsers.**
  - The driver cuts the journal into 512-byte results and keeps a log of proof tests.
  - The parsers read vote counts back out of the programs' printed output.

Modules follow the source files:

| module | models |
|---|---|
| `Words` | `u8`, `u32`, `u64` and `i64`; wrapping arithmetic; the little-endian word codec |
| `Text` and `Lexing` | `format!("{}")`, `str::contains`, `str::lines`, `split_whitespace` and `parse::<i64>` |
| `Votes` | the shared record types |
| `ToyFhe` | `methods/guest/src/pure_rust_fhe.rs` |
| `LcgFhe` | the two `PROOF_OF_REAL_FHE*.rs` files |
| `HostClient` | `host/src/fhe_client.rs` |
| `Challenger` | `challenger.rs` |
| `GuestTally` | `methods/guest/src/main.rs` |
| `HostVerify` | `host/src/main.rs` |
| `ProofProtocol` | `fhe_proof_protocol.rs` |
| `OutputParsers` | `zkvm_fhe_proof.rs` |

Code that fills arrays or reassigns variables in loops is modelled as methods with loops. Each such method is proved equal to a specification function, and the properties are proved about those functions.

Random draws, the clock and the Keccak-based helpers are parameters. Random values carry the range preconditions of the draws they replace.

Consequences of the code as written that the proofs make explicit:

- Decryption ignores the key. Decrypting with the wrong key gives the right value (`LcgFhe.KeyDependencyScenario`).
- In the runtime of `PROOF_OF_REAL_FHE.rs`, two encryptions of one value are identical (`LcgFhe.RepeatedPlaintextScenario`).
- The simulated runs of the challenger and of the protocol driver submit all-zero results. A run therefore passes exactly when every randomly drawn challenge plaintext is 0 (`Challenger.SimulatedRunVerdict`, `ProofProtocol.FheProofProtocol.RunProofTest`).
- The challenger encrypts a negative plaintext through its `u64` bit pattern. -1 is therefore encrypted as 0, not as its residue 65536 (`Challenger.MinusOneDecryptsToZero`).
- The guest counts modulo 1024. The host therefore accepts the guest's output exactly when every option has fewer than 1024 votes (`HostVerify.HostAcceptsGuestTally`).
- The computation hash is injective on counts below 2^16 (`GuestTally.ComputationHashInjective`). For larger counts the packed fields overlap (`GuestTally.CombineCollision`).

## Model

| member | source | states |
|---|---|---|
| Words.AsU64 | methods/guest/src/pure_rust_fhe.rs:119 | `v as u64` is `v` for a non-negative `v` and `v + 2^64` for a negative one |
| Words.ToLeBytes | methods/guest/src/pure_rust_fhe.rs:51 | `to_le_bytes` gives 8 bytes whose little-endian value is the word |
| Words.FromLeBytes | methods/guest/src/pure_rust_fhe.rs:156 | `from_le_bytes` on 8 bytes gives the word whose `to_le_bytes` is those bytes |
| Words.EncodeAt | methods/guest/src/pure_rust_fhe.rs:50-52 | bytes 8i..8i+8 of a serialised word sequence are the little-endian bytes of word i |
| Words.DecodeEncode | methods/guest/src/pure_rust_fhe.rs:152-157 | decoding serialised words gives back the words |
| Words.EncodeDecode | methods/guest/src/pure_rust_fhe.rs:152-157 | serialising decoded words gives back every input of length 8n |
| Words.EncodeInjective | methods/guest/src/pure_rust_fhe.rs:47-54 | distinct word sequences serialise to distinct bytes |
| Words.SerializeWords | methods/guest/src/pure_rust_fhe.rs:47-54 | the append loop produces the encoding of the words in index order |
| Words.DeserializeWords | methods/guest/src/pure_rust_fhe.rs:151-157 | the fill loop decodes n words, and re-encoding them gives back the input |
| ToyFhe.Sum | methods/guest/src/pure_rust_fhe.rs:61-73 | every coefficient of a sum lies below 2^40 |
| ToyFhe.SumCommutes | methods/guest/src/pure_rust_fhe.rs:61-73 | ciphertext addition is commutative |
| ToyFhe.WrapThenReduce | methods/guest/src/pure_rust_fhe.rs:66 | reducing a wrapped `u64` sum modulo 2^40 equals reducing the exact sum, since 2^40 divides 2^64 |
| ToyFhe.Add | methods/guest/src/pure_rust_fhe.rs:61-73 | the array loop computes the coefficient-wise sum modulo 2^40 |
| ToyFhe.Decrypt | methods/guest/src/pure_rust_fhe.rs:138-144 | decryption never fails and lies in [0, 1024) |
| ToyFhe.DecryptIgnoresKey | methods/guest/src/pure_rust_fhe.rs:138-144 | every private key decrypts a ciphertext to the same value |
| ToyFhe.DecryptSum | methods/guest/src/pure_rust_fhe.rs:61-73 | decryption is additive: Dec(a + b) = (Dec(a) + Dec(b)) mod 1024 under every key |
| ToyFhe.CastResidue | methods/guest/src/pure_rust_fhe.rs:119 | `(v as u64) % 1024` is the non-negative residue of `v`, negative `v` included |
| ToyFhe.Encryption | methods/guest/src/pure_rust_fhe.rs:115-136 | an encryption is reduced and decrypts to `plaintext mod 1024` under every key |
| ToyFhe.Encrypt | methods/guest/src/pure_rust_fhe.rs:115-136 | coefficient 0 is `plaintext mod 1024` and coefficients 1..15 are the noise draws; the client's copy in `host/src/fhe_client.rs` is the same code |
| ToyFhe.SampleKeys | methods/guest/src/pure_rust_fhe.rs:95-107 | key generation yields 8 secret coefficients below 1024 and 8 public ones below 2^40, the draws in order |
| ToyFhe.PureRustFheRuntime.constructor | methods/guest/src/pure_rust_fhe.rs:84-90 | a new runtime holds no keys and the seed 12345 |
| ToyFhe.PureRustFheRuntime.GenerateKeys | methods/guest/src/pure_rust_fhe.rs:92-113 | returns an in-range key pair and stores that same pair in the runtime, leaving the seed unchanged |
| ToyFhe.Serialize | methods/guest/src/pure_rust_fhe.rs:47-54 | a ciphertext serialises to exactly 128 bytes, 8 little-endian bytes per coefficient |
| ToyFhe.Deserialized | methods/guest/src/pure_rust_fhe.rs:146-163 | deserialisation fails exactly when the input is not 128 bytes long |
| ToyFhe.DeserializeCiphertext | methods/guest/src/pure_rust_fhe.rs:146-163 | rejects every length but 128; otherwise succeeds with coefficients that re-serialise to the input |
| ToyFhe.DeserializeSerialized | methods/guest/src/pure_rust_fhe.rs:146-163 | deserialise after serialise is the identity on ciphertexts |
| ToyFhe.SerializeDeserialized | methods/guest/src/pure_rust_fhe.rs:146-163 | every 128-byte input deserialises, and serialising the result gives the input back |
| ToyFhe.HomomorphicAdd | methods/guest/src/pure_rust_fhe.rs:167-177 | returns `Ok` of one ciphertext, which decrypts to the sum of the decryptions modulo 1024 |
| ToyFhe.BasicOperationsScenario | methods/guest/src/pure_rust_fhe.rs:184-201 | 5 and 3 encrypted, added and decrypted give 8 for every key and noise draw |
| ToyFhe.SerializationScenario | methods/guest/src/pure_rust_fhe.rs:204-217 | an encryption of 42 survives serialise-then-deserialise for every draw |
| LcgFhe.KeyRow | PROOF_OF_REAL_FHE_SIMPLE.rs:67-71 | every state of the generator reduced modulo `m` lies below `m` |
| LcgFhe.PublicKeyFromSeed | PROOF_OF_REAL_FHE_SIMPLE.rs:62-74 | the public key derived from a seed has all coefficients below 2^40 |
| LcgFhe.PrivateKeyFromSeed | PROOF_OF_REAL_FHE_SIMPLE.rs:62-74 | the private key derived from a seed has all coefficients below 1024 |
| LcgFhe.PrivateKeyFromPublic | PROOF_OF_REAL_FHE_SIMPLE.rs:69-70 | each secret coefficient is the public coefficient of the same index reduced modulo 1024 |
| LcgFhe.GenerateLcgKeys | PROOF_OF_REAL_FHE_SIMPLE.rs:62-74 | the LCG loop yields exactly the key pair determined by the seed |
| LcgFhe.NoiseChain | PROOF_OF_REAL_FHE_SIMPLE.rs:85-88 | the fifteen noise coefficients all lie below 2^40 |
| LcgFhe.Residue | PROOF_OF_REAL_FHE_SIMPLE.rs:77 | `(plaintext as u64) % 1024` is the mathematical residue of the plaintext |
| LcgFhe.LcgEncrypt | PROOF_OF_REAL_FHE_SIMPLE.rs:76-94 | the encryption loop yields the residue followed by the generator states after steps 1..15, modulo 2^40 |
| LcgFhe.LcgEncryptionsDecrypt | PROOF_OF_REAL_FHE_SIMPLE.rs:96-99 | both versions' ciphertexts decrypt to the plaintext residue under every key |
| LcgFhe.SeededEncryptionInjective | PROOF_OF_REAL_FHE_SIMPLE.rs:171-179 | in the simple version two plaintexts share a ciphertext exactly when they agree modulo 1024 |
| LcgFhe.FixedNoiseSharesNoise | PROOF_OF_REAL_FHE.rs:82-100 | in the other version all ciphertexts of a runtime share coefficients 1..15, and coefficient 0 is the residue |
| LcgFhe.LcgRuntime.constructor | PROOF_OF_REAL_FHE_SIMPLE.rs:56-60 | a new runtime has the seed 12345 |
| LcgFhe.LcgRuntime.GenerateKeys | PROOF_OF_REAL_FHE_SIMPLE.rs:62-74 | the pair returned is the one the runtime's seed determines, so every call on a runtime returns the same keys |
| LcgFhe.LcgRuntime.Encrypt | PROOF_OF_REAL_FHE_SIMPLE.rs:76-94 | the noise chain starts at `noise_seed + residue` (simple version) or at `noise_seed` (other version); the result decrypts to the residue |
| LcgFhe.EncryptedSum | PROOF_OF_REAL_FHE_SIMPLE.rs:144-151 | Decrypt(Encrypt(a) + Encrypt(b)) = (a + b) mod 1024 |
| LcgFhe.ArbitraryAdditionScenario | PROOF_OF_REAL_FHE_SIMPLE.rs:127-161 | every row (5,3,8), (15,7,22), (42,13,55), (0,9,9), (100,200,300) decrypts to its expected sum, so no panic; the flag selects this file's runtime or the one in `PROOF_OF_REAL_FHE.rs` (lines 128-162), and with either runtime every row would pass |
| LcgFhe.DistinctPlaintextsScenario | PROOF_OF_REAL_FHE_SIMPLE.rs:163-194 | 5 and 7 give different ciphertexts (no panic) and decrypt to 5 and 7 |
| LcgFhe.RepeatedPlaintextScenario | PROOF_OF_REAL_FHE.rs:164-192 | two encryptions of 42 are identical, so the "deterministic" branch would be taken; both decrypt to 42 |
| LcgFhe.FirstSecretCoefficients | PROOF_OF_REAL_FHE_SIMPLE.rs:200-206 | the seeds 12345 and 54321 give first secret coefficients 638 and 790 |
| LcgFhe.KeyDependencyScenario | PROOF_OF_REAL_FHE_SIMPLE.rs:196-228 | the two key pairs differ, yet the wrong key decrypts 17 to 17, like the right one; the same holds for the runtime of `PROOF_OF_REAL_FHE.rs` (lines 194-226) |
| LcgFhe.ColumnSumBounds | PROOF_OF_REAL_FHE_SIMPLE.rs:256-274 | the plain column total of 0/1 ballots lies between 0 and the number of ballots |
| LcgFhe.ColumnSumStep | PROOF_OF_REAL_FHE_SIMPLE.rs:272-274 | adding a row adds its entry to the running total, which stays a valid plaintext |
| LcgFhe.EncryptAndAdd | PROOF_OF_REAL_FHE_SIMPLE.rs:262-269 | adding an encrypted vote raises the tally's decryption by the vote, modulo 1024 |
| LcgFhe.VotingHomomorphism | PROOF_OF_REAL_FHE_SIMPLE.rs:247-292 | for any ballots (fewer than 1024), the decrypted tallies equal the accumulated plain column sums, so the asserts hold |
| LcgFhe.VotingRowsTally | PROOF_OF_REAL_FHE_SIMPLE.rs:238-245 | the six demonstration ballots have column sums 3, 2 and 1 |
| LcgFhe.VotingScenario | PROOF_OF_REAL_FHE_SIMPLE.rs:230-292 | test 4 decrypts the tallies to (3, 2, 1), with either runtime (also `PROOF_OF_REAL_FHE.rs` lines 228-299) |
| Votes.VoteOption.Number | host/src/types.rs:4-8 | the discriminants are 1, 2 and 3 |
| Votes.Count | host/src/main.rs:137-143 | an option's count never exceeds the number of votes |
| Votes.CountsPartition | host/src/main.rs:137-143 | every vote increments exactly one counter, so the three counts add up to the number of votes |
| HostClient.NewClient | host/src/fhe_client.rs:55-63 | a new client has the seed 12345 and holds the public half of the generated pair, in range |
| HostClient.VoteVector | host/src/fhe_client.rs:72-73 | the plain vote vector has 1 at index `choice - 1` and 0 at the other two |
| HostClient.VoteVectorInjective | host/src/fhe_client.rs:72-73 | distinct choices give distinct vote vectors |
| HostClient.SerializedEncryption | host/src/fhe_client.rs:39-46 | each serialised entry is 128 bytes and deserialises to the encryption it came from |
| HostClient.EncryptedVoteVector | host/src/fhe_client.rs:66-87 | the encrypted vote vector has exactly three entries |
| HostClient.EncryptedVoteVectorDecrypts | host/src/fhe_client.rs:66-87 | every entry deserialises, and it decrypts to 1 at the chosen candidate and 0 elsewhere: the vector is one-hot |
| HostClient.EntryDecrypts | host/src/fhe_client.rs:121-139 | a serialised client encryption deserialises and decrypts to the plaintext residue |
| HostClient.EncryptEntry | host/src/fhe_client.rs:77-82 | encrypt-then-serialise yields the specified serialised encryption |
| HostClient.EncryptVoteVector | host/src/fhe_client.rs:66-87 | the three-step push loop builds the encrypted vote vector in candidate order |
| Challenger.ConstantValues | challenger.rs:13-16 | Δ = ⌊2^58 / 65537⌋ = 4397979403263 and the noise bound t/16 is 4096 |
| Challenger.GenerateChallengeKeys | challenger.rs:102-117 | 32 secret coefficients below 65537 and 32 public ones below 2^58, the draws in order |
| Challenger.NewChallenger | challenger.rs:85-100 | the fixed parameters together with an in-range key pair |
| Challenger.PlaintextResidue | challenger.rs:241 | the residue of `plaintext as u64` lies below 65537 |
| Challenger.ResidueOfNonNegative | challenger.rs:241 | a non-negative plaintext keeps its ordinary residue |
| Challenger.ResidueOfNegative | challenger.rs:241 | a negative plaintext gets the residue of `plaintext + 1`, because 2^64 ≡ 1 (mod 65537) |
| Challenger.ScaledCoefficient | challenger.rs:249-253 | coefficient 0 is exactly `residue·Δ + noise mod 4096`; the reduction modulo q never changes it |
| Challenger.ScaledFits | challenger.rs:249-253 | a scaled residue plus noise below 4096 stays below 2^58 |
| Challenger.Encrypt | challenger.rs:239-266 | coefficient 0 is `residue·Δ + noise` and the other 63 coefficients lie below 2^58 |
| Challenger.Descale | challenger.rs:293-296 | a decoded value lies in [0, 65537) |
| Challenger.DescaleScaled | challenger.rs:293-296 | decoding `m·Δ + noise` gives back `m` for every `m < 65537` and noise below 4096 |
| Challenger.SerializeCiphertext | challenger.rs:268-274 | a ciphertext serialises to 512 bytes, 8 little-endian bytes per coefficient |
| Challenger.Decrypted | challenger.rs:276-299 | `deserialize_and_decrypt` fails exactly when the input is not 512 bytes; otherwise the value is in [0, 65537) |
| Challenger.DeserializeAndDecrypt | challenger.rs:276-299 | the length check and the decode loop compute the specified result |
| Challenger.SerializedEncryption | challenger.rs:268-274 | a serialised challenge ciphertext is 512 bytes long |
| Challenger.DecryptsEncryption | challenger.rs:239-299 | decrypting a serialised encryption gives the plaintext's residue |
| Challenger.DecryptsPlaintext | challenger.rs:293-298 | every plaintext in [0, 65537) survives encryption, serialisation and decryption |
| Challenger.MinusOneDecryptsToZero | challenger.rs:241 | -1 decrypts to 0, although its residue modulo 65537 is 65536 |
| Challenger.ChallengeDecrypts | challenger.rs:123-167 | a challenge has as many ciphertexts as plaintexts, and each ciphertext decrypts to its plaintext |
| Challenger.EncryptChallenge | challenger.rs:137-138 | encrypt-then-serialise yields the specified challenge ciphertext |
| Challenger.CreateChallenge | challenger.rs:123-167 | the loop builds `numVotes` ciphertexts and the plaintexts in matching order, with the expected operations and the clock reading |
| Challenger.VerifyReceipt | challenger.rs:301-308 | the receipt stub accepts every receipt |
| Challenger.FirstUndecryptable | challenger.rs:198-213 | finds the first result that is not 512 bytes long, every earlier one being 512 bytes |
| Challenger.FirstUndecryptableAt | challenger.rs:198-213 | the first wrong-length index is unique |
| Challenger.DecodedValues | challenger.rs:195-203 | one decrypted value per decrypted result |
| Challenger.DecodedValuesStep | challenger.rs:198-203 | each decrypted result appends its value and its numbered log line |
| Challenger.VerdictSucceeds | challenger.rs:175-237 | success iff the receipt is valid, every result decrypts and the two sums agree; success reports the values and no error, every failure has an error; the decrypted values are reported exactly when the receipt is valid and every result decrypts, a sum mismatch included, and a decryption failure reports none |
| Challenger.VerifyZkvmResult | challenger.rs:175-237 | the early returns and the decode loop compute the specified verdict |
| Challenger.SimulatedResults | challenger.rs:355-358 | one 512-byte placeholder per challenge ciphertext |
| Challenger.ZeroBufferDecryptsToZero | challenger.rs:293-298 | an all-zero 512-byte buffer decrypts to 0 |
| Challenger.SumZeroIffAllZero | challenger.rs:216 | a sum of non-negative plaintexts is 0 exactly when each of them is 0 |
| Challenger.SumOfZeros | challenger.rs:217 | decrypted values that are all 0 sum to 0 |
| Challenger.ZeroResultsVerdict | challenger.rs:216-236 | against plaintexts drawn from {0, 1, 2}, all-zero results verify exactly when every plaintext is 0 |
| Challenger.SimulatedRunVerdict | challenger.rs:354-365 | the driver's placeholder run verifies exactly when every drawn plaintext is 0 |
| Challenger.RunChallengeProtocol | challenger.rs:331-365 | the five-vote protocol run succeeds exactly when all five draws are 0 |
| GuestTally.OrDisjoint | methods/guest/src/main.rs:104 | or-ing a multiple of 2^k with a value below 2^k adds them |
| GuestTally.OrBelow | methods/guest/src/main.rs:104 | or-ing two values below 2^k stays below 2^k |
| GuestTally.CombineFields | methods/guest/src/main.rs:104 | with c2 and c3 below 2^16, the packed word is c1·2^32 + c2·2^16 + c3 |
| GuestTally.CombineInjective | methods/guest/src/main.rs:104 | packing is injective on triples whose two lower counts fit in 16 bits |
| GuestTally.CombineCollision | methods/guest/src/main.rs:104 | without that bound the fields overlap: (0, 65536, 0) and (1, 0, 0) pack alike |
| GuestTally.MixInverse | methods/guest/src/main.rs:107 | wrapping multiplication by the odd constant is undone by its inverse modulo 2^64 |
| GuestTally.MixInjective | methods/guest/src/main.rs:107 | the mixing step is a bijection on `u64` |
| GuestTally.Hex | methods/guest/src/main.rs:108 | `{:016x}` yields exactly the requested number of lowercase hex digits |
| GuestTally.HexValueOfHex | methods/guest/src/main.rs:108 | reading the hex digits back gives the value modulo 16^width |
| GuestTally.Hex16Injective | methods/guest/src/main.rs:108 | distinct `u64` values have distinct 16-digit hex strings |
| GuestTally.ComputationHash | methods/guest/src/main.rs:102-109 | the hash is always 16 lowercase hex digits |
| GuestTally.ComputationHashInjective | methods/guest/src/main.rs:102-109 | distinct count triples with the two lower counts below 2^16 have distinct hashes |
| GuestTally.ExpectedTally | methods/guest/src/main.rs:80-83 | each committed count is below 1024 and the total is their sum, without overflow |
| GuestTally.ExpectedTallyExact | methods/guest/src/main.rs:48-83 | with fewer than 1024 votes each count is the number of votes for that option and the total is the number of votes |
| GuestTally.TallyStep | methods/guest/src/main.rs:53-59 | adding an encryption of 1 raises the tally's decryption by one, modulo 1024 |
| GuestTally.AddVote | methods/guest/src/main.rs:57-70 | exactly the chosen option's tally receives the vote and the other two are unchanged |
| GuestTally.AddVoteCounts | methods/guest/src/main.rs:48-71 | each loop step keeps every tally decrypting to its option's count modulo 1024 |
| GuestTally.TallyEncryptedVotes | methods/guest/src/main.rs:31-99 | for every key and noise draw the committed output is the counts modulo 1024, their sum and their hash |
| HostVerify.CreateTestVotes | host/src/main.rs:75-100 | one vote per test voter, in order, with that voter's option and derived address |
| HostVerify.TestVotesCounts | host/src/main.rs:76-84 | the seven test votes count 3, 3 and 1 |
| HostVerify.CountPrefixStep | host/src/main.rs:137-143 | each vote adds one to its own option's count only |
| HostVerify.CountVotes | host/src/main.rs:133-143 | the counting loop yields each option's count as a `u32` |
| HostVerify.HostCountStep | host/src/main.rs:137-143 | each loop step increments exactly the counter of the vote's option |
| HostVerify.VerifyResults | host/src/main.rs:129-164 | the loop and the sequence of early returns compute the specified verdict |
| HostVerify.VerdictOk | host/src/main.rs:146-158 | the verdict is `Ok` exactly when all four committed numbers equal the host's |
| HostVerify.VerifyAcceptsExactly | host/src/main.rs:129-164 | with fewer than 2^32 votes: `Ok` iff each count is that option's vote count and the total is the number of votes |
| HostVerify.Option1CheckedFirst | host/src/main.rs:146-148 | a wrong option-1 count is the error reported, whatever else is wrong |
| HostVerify.Option2CheckedSecond | host/src/main.rs:149-151 | with option 1 right, a wrong option-2 count is the error reported |
| HostVerify.Option3CheckedThird | host/src/main.rs:152-154 | with options 1 and 2 right, a wrong option-3 count is the error reported |
| HostVerify.HostAcceptsGuestTally | host/src/main.rs:129-164 | the host accepts the guest's output exactly when every option has fewer than 1024 votes |
| HostVerify.TestRunAccepted | host/src/main.rs:17-55 | on the test votes the guest commits (3, 3, 1) with total 7 and the host accepts it |
| ProofProtocol.SimulatedJournal | fhe_proof_protocol.rs:161-169 | the simulated journal is (challenges + 1) × 512 bytes |
| ProofProtocol.ExtractResultCiphertexts | fhe_proof_protocol.rs:192-206 | ⌊len/512⌋ chunks, chunk i being bytes [512i, 512i+512); trailing bytes are dropped |
| ProofProtocol.ExtractFlatten | fhe_proof_protocol.rs:192-206 | the chunks laid end to end are the journal up to its last whole chunk |
| ProofProtocol.ExtractSimulated | fhe_proof_protocol.rs:161-206 | cutting the simulated journal gives challenges + 1 all-zero 512-byte results |
| ProofProtocol.ZkvmExecution | fhe_proof_protocol.rs:118-155 | the simulated execution always succeeds and carries the simulated journal |
| ProofProtocol.FailedExecutionFails | fhe_proof_protocol.rs:81-89 | a failed execution verifies as a failure with the error "zkVM execution failed" |
| ProofProtocol.SimulatedRunPasses | fhe_proof_protocol.rs:118-189 | a simulated run verifies exactly when every challenge plaintext is 0 |
| ProofProtocol.VerifyZkvmProof | fhe_proof_protocol.rs:177-189 | the journal is cut into results and handed to the challenger |
| ProofProtocol.VerifyOutcome | fhe_proof_protocol.rs:77-90 | the match on the zkVM outcome yields the specified verification |
| ProofProtocol.SuccessfulTests | fhe_proof_protocol.rs:218 | the success count never exceeds the number of tests |
| ProofProtocol.Summary | fhe_proof_protocol.rs:216-231 | successful + failed = total, and the report declares success iff some test passed |
| ProofProtocol.SuccessfulWitness | fhe_proof_protocol.rs:218-223 | the success count is positive exactly when some logged test passed |
| ProofProtocol.SummaryAppend | fhe_proof_protocol.rs:216-220 | logging one test adds one to the total and one to either the passed or the failed count |
| ProofProtocol.ThreeTestsSummary | fhe_proof_protocol.rs:277-300 | three logged tests count three passes exactly when all three passed |
| ProofProtocol.ProofTestEntry | fhe_proof_protocol.rs:70-101 | the logged entry has the test id, the simulated execution of its challenge and a verification; `proof_valid` equals the verification's `success` and holds iff every drawn plaintext is 0 |
| ProofProtocol.FheProofProtocol.constructor | fhe_proof_protocol.rs:50-62 | a fresh challenger and an empty log |
| ProofProtocol.FheProofProtocol.RunProofTest | fhe_proof_protocol.rs:65-112 | appends exactly one entry, keeps the challenger, and returns that entry's `proof_valid` |
| ProofProtocol.DemonstrateMathematicalProof | fhe_proof_protocol.rs:270-313 | all three tests pass iff every drawn plaintext is 0, iff the report counts three passes out of three |
| Text.NatToString | host/src/main.rs:48 | `{}` of a natural is a non-empty run of digits without a leading zero |
| Text.IntToString | PROOF_OF_REAL_FHE_SIMPLE.rs:285 | `{}` of an integer is non-empty and starts with `-` exactly when the integer is negative |
| Text.DigitsValueOfNatToString | zkvm_fhe_proof.rs:64 | the digits written for a natural read back as that natural |
| Text.NatToStringInjective | host/src/main.rs:48 | distinct naturals are written differently |
| Lexing.IndexOf | zkvm_fhe_proof.rs:59 | the position of the first occurrence of a character, or the length when there is none |
| Lexing.LinesHaveNoNewline | zkvm_fhe_proof.rs:59 | no line produced by `lines()` contains `\n` |
| Lexing.LinesOfJoinLines | zkvm_fhe_proof.rs:59 | lines printed with `println!` are read back one for one by `lines()` |
| Lexing.WordLength | zkvm_fhe_proof.rs:62 | the first token ends at the first whitespace |
| Lexing.TokensAreWords | zkvm_fhe_proof.rs:62 | every token of `split_whitespace` is non-empty and free of whitespace |
| Lexing.TokensOfUnwords | zkvm_fhe_proof.rs:62 | splitting words joined by single spaces gives back the words |
| Lexing.ParseI64 | zkvm_fhe_proof.rs:64 | `parse::<i64>` succeeds iff the text is an optional sign and digits whose value fits `i64`, and then yields that value |
| Lexing.ParseFormatted | zkvm_fhe_proof.rs:64 | every `i64` written with `{}` parses back to itself |
| Lexing.FormattedIsWord | zkvm_fhe_proof.rs:62 | a formatted integer is a single token |
| OutputParsers.Position | zkvm_fhe_proof.rs:68 | `position(l == line)` finds the first equal line, and `None` exactly when there is none |
| OutputParsers.ExtractVotingResults | zkvm_fhe_proof.rs:57-87 | the line scan with its early return computes the specified result |
| OutputParsers.SkipNonCandidates | zkvm_fhe_proof.rs:59-85 | lines that are not "Candidate 1:" lines never change the outcome |
| OutputParsers.NoCandidateLineGivesZeros | zkvm_fhe_proof.rs:57-87 | without a line containing both "Candidate 1:" and "votes" the result is (0, 0, 0) |
| OutputParsers.CandidateLineTokens | PROOF_OF_REAL_FHE_SIMPLE.rs:285-287 | a printed candidate line splits into "Candidate", "k:", the tally, "votes", "(expected:" and "e)" |
| OutputParsers.CandidateLineTally | PROOF_OF_REAL_FHE_SIMPLE.rs:285-287 | a candidate line has at least four tokens and token 2 is the formatted tally |
| OutputParsers.CandidateOneLineMatches | zkvm_fhe_proof.rs:60 | the printed "Candidate 1" line passes the parser's substring filter |
| OutputParsers.CandidateLinePlain | PROOF_OF_REAL_FHE_SIMPLE.rs:285-287 | a candidate line contains no newline and does not end in `\r` |
| OutputParsers.PositionOfFirst | zkvm_fhe_proof.rs:68 | a line with no equal line before it is found at its own index |
| OutputParsers.CandidateAtFirst | zkvm_fhe_proof.rs:62-80 | a matching first occurrence followed by two lines of four or more tokens yields their tokens 2 |
| OutputParsers.FirstCandidateFound | zkvm_fhe_proof.rs:59-80 | after lines without "Candidate 1:", a matching line and its two successors determine the result |
| OutputParsers.ReportLinesRead | zkvm_fhe_proof.rs:59 | the printed report around the three candidate lines is read back line for line |
| OutputParsers.ReportFound | zkvm_fhe_proof.rs:57-87 | the parser picks the three formatted tallies out of the candidate lines |
| OutputParsers.StandaloneReportRoundTrip | zkvm_fhe_proof.rs:57-87 | parsing a printed standalone report gives back the three tallies it printed |
| OutputParsers.RouteMentions | zkvm_fhe_proof.rs:102-108 | a count goes to option 1 when its label is present, else to option 2, else to option 3, else nowhere |
| OutputParsers.Assign | zkvm_fhe_proof.rs:102-108 | storing a count changes the routed option only |
| OutputParsers.ExtractZkvmResults | zkvm_fhe_proof.rs:89-116 | the nested line and token loops compute the specified result |
| OutputParsers.TokenScanKeeps | zkvm_fhe_proof.rs:99-110 | a line that mentions neither label of an option leaves that option's count unchanged |
| OutputParsers.ScanLinesSnoc | zkvm_fhe_proof.rs:96 | lines are processed in order, so a later match overwrites an earlier one |
| OutputParsers.UnlabelledOptionStaysZero | zkvm_fhe_proof.rs:92-115 | an option that no line mentions stays 0 |
| OutputParsers.ScanSkipsTail | zkvm_fhe_proof.rs:96-97 | inert lines, those without "📊" or naming no option, change nothing |
| OutputParsers.LineScanInert | zkvm_fhe_proof.rs:97-110 | an inert line leaves all three counts unchanged, even when it holds "📊" and "votes" |
| OutputParsers.TokenScanUnrouted | zkvm_fhe_proof.rs:98-110 | on a line naming no option, the token scan assigns nothing |
| OutputParsers.NoSummaryLineGivesZeros | zkvm_fhe_proof.rs:89-116 | without a "📊" line the result is (0, 0, 0) |
| OutputParsers.DescriptionWordsJoin | host/src/types.rs:11-17 | each option's description followed by ":" is its words joined by single spaces |
| OutputParsers.SummaryTokens | host/src/main.rs:48-50 | a printed summary line splits into "📊", the description words, the count and "votes" |
| OutputParsers.SummaryLineSelected | zkvm_fhe_proof.rs:97 | every printed summary line passes the "📊"/"votes" filter |
| OutputParsers.SummaryLineRoute | zkvm_fhe_proof.rs:102-108 | each printed summary line is routed to its own option |
| OutputParsers.SecondSummaryRoute | zkvm_fhe_proof.rs:104 | the option-2 summary line is routed to option 2 |
| OutputParsers.ThirdSummaryRoute | zkvm_fhe_proof.rs:106 | the option-3 summary line is routed to option 3 |
| OutputParsers.ThirdNotEarlier | zkvm_fhe_proof.rs:102-104 | the option-3 summary line mentions neither option-1 nor option-2 labels |
| OutputParsers.TokenScanLastVotes | zkvm_fhe_proof.rs:99-101 | when "votes" is only the last token, the scan stores the parsed count before it |
| OutputParsers.SummaryLineScan | zkvm_fhe_proof.rs:97-110 | scanning a summary line stores its count in its option only |
| OutputParsers.SummaryLinePlain | host/src/main.rs:48-50 | a summary line contains no newline and does not end in `\r` |
| OutputParsers.SummaryScan | zkvm_fhe_proof.rs:96-113 | inert lines followed by the three summary lines yield the three counts |
| OutputParsers.HostSummaryRoundTrip | zkvm_fhe_proof.rs:89-116 | parsing the host's printed summary amid inert lines gives back the three counts |
| OutputParsers.ProcessingLineInert | host/src/main.rs:21 | the host's "📊 [Host] Processing n encrypted votes:" line is a single line that names no option, for every n |
| OutputParsers.HostOutputRoundTrip | host/src/main.rs:21-50 | parsing host output that holds the processing line and then the summary, amid inert lines, gives back the three counts |

## Left out

- Random draws (`rand::thread_rng`) in key generation, encryption and challenge creation are parameters. Each carries the range of the draw it replaces: [0, 1024), [0, 2^40), [0, 65537), [0, 2^58) or {0, 1, 2}.
- Challenger.Encrypt: the Gaussian `f64` noise and its `abs() as u64` conversion are floating point. The noise magnitude is a `u64` parameter, reduced modulo 4096 as the code does, and the other 63 coefficients are parameters below 2^58. The `Normal::new` error path, which cannot fire for a positive deviation, and the deviation parameter 3.19 are not modelled.
- Printing, `eprintln!`, the prose of the proof report, the printed ciphertext prefixes of the demonstrations and the verification log's closing lines are left out. These are console output, and only the counts the report prints are modelled.
- Writing the report with `fs::write` is left out (file I/O). So is the `SystemTime` timestamp, which is a parameter.
- The zkVM interface is left out (`env::read`, `env::commit`, `ExecutorEnv`, `default_prover`, `receipt.verify` and journal decoding). The guest is a function from the vote list to the committed output, and the host's check is applied to that output directly.
- In `zkvm_fhe_proof.rs`, running the two programs with `Command` and `String::from_utf8_lossy` is left out (process I/O). The parsers take the decoded output text as input.
- Keccak hashing and hex encoding in `generate_eth_address`, `create_signature` and `simulate_encryption` are foreign library calls. They are function parameters of `HostVerify.CreateTestVotes`.
- Challenger.VerifyReceipt: the stub accepts every receipt; no proof checking exists to model. `Challenger.VerifyZkvmResult` takes the receipt check's answer as a parameter, so the invalid-receipt branch is covered too.
- The `try_into` error paths of the decode loops are not modelled. They cannot fire, because every slice is exactly 8 bytes.
- The `get_public_key` accessors of the challenger and the client are left out. Each is a plain field read.
- `Signed::from` is left out. Plaintexts are `i64` values directly.
- ToyFhe.Add: `u64` overflow of `a[i] + b[i]` panics in a debug build. The model wraps, as a release build does. Every coefficient the scheme produces is below 2^40, so the sum never overflows. Only deserialised inputs could.
- HostVerify.CountVotes: the host's `u32` counters are modelled as wrapping modulo 2^32, as in a release build. `HostVerify.VerifyAcceptsExactly` requires fewer than 2^32 votes, where nothing wraps.
- Challenger.VerifyZkvmResult: the two sums are unbounded integers. The `i64` overflow of `iter().sum()` is not modelled. It needs more than 2^47 results.
- The guest's loop reads `vote_option`, but the guest crate's own `EncryptedVote` declares `actual_choice` and an encrypted vote vector. The model uses one record with the host's fields for both sides.
- `PROOF_OF_REAL_FHE.rs` does not compile: its tests lie outside `mod pure_rust_fhe`, which closes at line 107; line 177 reads the private field `ciphertext_data` (declared at line 37) and line 203 writes the private field `noise_seed` (declared at line 58). `LcgFhe.ArbitraryAdditionScenario`, `LcgFhe.RepeatedPlaintextScenario`, `LcgFhe.KeyDependencyScenario` and `LcgFhe.VotingScenario` model the behaviour the file intends, with those fields readable.
- The client's runtime in `host/src/fhe_client.rs` (lines 94-119) holds only `noise_seed`, and its `generate_keys` stores no keys. `HostClient.NewClient` builds the guest's key-storing runtime instead. The difference is not observable, because `FheClient` keeps only the public key and never reads the runtime's stored keys.
- In `fhe_proof_protocol.rs`, lines 66, 68, 288 and 290 do not compile: each passes `println!` a format string that is not a literal (`"\n" + String` or `"=".repeat(80)`). These lines only print, so nothing of them is modelled.
- OutputParsers.ExtractZkvmResults: in `zkvm_fhe_proof.rs` line 100, `part == "votes"` compares a `&&str` with a `&str`, which has no `PartialEq` implementation and does not compile. The model compares the token's text (`*part == "votes"`), which is the evident intent.
- Lexing.Lines: a final line ending in `\r` with no `\n` after it keeps its `\r`, as in current Rust. Older toolchains stripped it. Every line the modelled programs print is free of `\r`.
- Lexing.IsWhitespace: `split_whitespace` splits on Unicode White_Space. The model lists those code points explicitly. Strings are sequences of Unicode scalar values, with no byte-level UTF-8.
- The `Hash` and `Serialize` derives and the `PhantomData` marker carry no behaviour and are left out.
