/**
 * The zkVM guest program (`methods/guest/src/main.rs`): it tallies the votes
 * with the toy scheme, decrypts the three tallies and commits them together
 * with a 64-bit "computation hash" of the counts.
 */
module GuestTally {
  import opened Words
  import opened Votes
  import opened ToyFhe
  import Arith

  // ---------------------------------------------------------------------
  // The computation hash

  const HASH_MULTIPLIER: u64 := 0x9e37_79b9_7f4a_7c15
  /** The inverse of the multiplier modulo 2^64; it exists because the multiplier is odd. */
  const HASH_MULTIPLIER_INVERSE: u64 := 0xf1de_83e1_9937_733d
  const HALF_WORD: nat := 0x1_0000
  const WORD: nat := 0x1_0000_0000

  /** Bitwise or of two naturals, bit by bit from the least significant end. */
  function Or(a: nat, b: nat): nat
    decreases a + b
  {
    if a == 0 then b
    else if b == 0 then a
    else 2 * Or(a / 2, b / 2) + (if a % 2 == 1 || b % 2 == 1 then 1 else 0)
  }

  /** Or-ing a multiple of 2^k with a value below 2^k adds them: the set bits do not overlap. */
  lemma {:induction false} OrDisjoint(m: nat, b: nat, k: nat)
    requires b < Arith.Pow2(k)
    ensures Or(m * Arith.Pow2(k), b) == m * Arith.Pow2(k) + b
  {
    if k > 0 && m != 0 && b != 0 {
      var half := m * Arith.Pow2(k - 1);
      assert m * Arith.Pow2(k) == 2 * half;
      assert (2 * half) / 2 == half && (2 * half) % 2 == 0;
      OrDisjoint(m, b / 2, k - 1);
    }
  }

  /** The or of two values below 2^k is below 2^k. */
  lemma {:induction false} OrBelow(a: nat, b: nat, k: nat)
    requires a < Arith.Pow2(k) && b < Arith.Pow2(k)
    ensures Or(a, b) < Arith.Pow2(k)
  {
    if a != 0 && b != 0 {
      OrBelow(a / 2, b / 2, k - 1);
    }
  }

  /** `(c1 as u64) << 32 | (c2 as u64) << 16 | (c3 as u64)`; both shifts keep every bit of a `u32`. */
  function Combine(c1: u32, c2: u32, c3: u32): u64 {
    Pow2Value32();
    Pow2Value64();
    OrBelow(c1 * WORD, c2 * HALF_WORD, 64);
    OrBelow(Or(c1 * WORD, c2 * HALF_WORD), c3, 64);
    Or(Or(c1 * WORD, c2 * HALF_WORD), c3)
  }

  /** With the two lower counts below 2^16 the three fields do not overlap and the or is a sum. */
  lemma CombineFields(c1: u32, c2: u32, c3: u32)
    requires c2 < HALF_WORD && c3 < HALF_WORD
    ensures Combine(c1, c2, c3) == c1 * WORD + c2 * HALF_WORD + c3
  {
    Pow2Value32();
    OrDisjoint(c1, c2 * HALF_WORD, 32);
    assert (c1 * HALF_WORD + c2) * HALF_WORD == c1 * HALF_WORD * HALF_WORD + c2 * HALF_WORD;
    assert c1 * HALF_WORD * HALF_WORD == c1 * WORD;
    OrDisjoint(c1 * HALF_WORD + c2, c3, 16);
  }

  lemma Pow2Value16()
    ensures Arith.Pow2(16) == 0x1_0000
  {
    assert Arith.Pow2(8) == 0x100;
  }

  lemma Pow2Value32()
    ensures Arith.Pow2(16) == HALF_WORD && Arith.Pow2(32) == WORD
  {
    Pow2Value16();
    Arith.Pow2Add(16, 16);
  }

  lemma Pow2Value64()
    ensures Arith.Pow2(64) == U64_MODULUS
  {
    Pow2Value32();
    Arith.Pow2Add(32, 32);
  }

  /** The count triple is recovered from the combined word when the two lower counts fit in 16 bits. */
  lemma CombineInjective(a1: u32, a2: u32, a3: u32, b1: u32, b2: u32, b3: u32)
    requires a2 < HALF_WORD && a3 < HALF_WORD && b2 < HALF_WORD && b3 < HALF_WORD
    requires Combine(a1, a2, a3) == Combine(b1, b2, b3)
    ensures a1 == b1 && a2 == b2 && a3 == b3
  {
    CombineFields(a1, a2, a3);
    CombineFields(b1, b2, b3);
    var x := Combine(a1, a2, a3);
    Arith.DivModUnique(x, HALF_WORD, a1 * HALF_WORD + a2, a3);
    Arith.DivModUnique(x, HALF_WORD, b1 * HALF_WORD + b2, b3);
    Arith.DivModUnique(a1 * HALF_WORD + a2, HALF_WORD, a1, a2);
    Arith.DivModUnique(b1 * HALF_WORD + b2, HALF_WORD, b1, b2);
  }

  /** Without that range the fields overlap: the counts (0, 65536, 0) and (1, 0, 0) combine to the same word. */
  lemma CombineCollision()
    ensures Combine(0, 65536, 0) == Combine(1, 0, 0)
  {
    OrDisjoint(1, 0, 32);
    Pow2Value32();
  }

  /** `combined.wrapping_mul(0x9e3779b97f4a7c15)`. */
  function Mix(combined: u64): u64 {
    WrappingMul(combined, HASH_MULTIPLIER)
  }

  /** Multiplying by the inverse undoes the mixing, so `Mix` is a bijection on `u64`. */
  lemma MixInverse(x: u64)
    ensures WrappingMul(Mix(x), HASH_MULTIPLIER_INVERSE) == x
  {
    var p := x * HASH_MULTIPLIER;
    var q := p / U64_MODULUS;
    var k := 10771413168148108919;
    assert HASH_MULTIPLIER * HASH_MULTIPLIER_INVERSE == k * U64_MODULUS + 1;
    calc {
      Mix(x) * HASH_MULTIPLIER_INVERSE;
      (p - q * U64_MODULUS) * HASH_MULTIPLIER_INVERSE;
      { assert p * HASH_MULTIPLIER_INVERSE == x * (HASH_MULTIPLIER * HASH_MULTIPLIER_INVERSE); }
      x * (k * U64_MODULUS + 1) - q * U64_MODULUS * HASH_MULTIPLIER_INVERSE;
      (x * k - q * HASH_MULTIPLIER_INVERSE) * U64_MODULUS + x;
    }
    Arith.ModAddMultiple(x * k - q * HASH_MULTIPLIER_INVERSE, x, U64_MODULUS);
  }

  lemma MixInjective(x: u64, y: u64)
    requires Mix(x) == Mix(y)
    ensures x == y
  {
    MixInverse(x);
    MixInverse(y);
  }

  predicate IsLowerHex(c: char) {
    '0' <= c <= '9' || 'a' <= c <= 'f'
  }

  function HexDigit(d: nat): (c: char)
    requires d < 16
    ensures IsLowerHex(c)
  {
    "0123456789abcdef"[d]
  }

  function HexDigitValue(c: char): (d: nat)
    requires IsLowerHex(c)
    ensures d < 16
  {
    if c <= '9' then c as int - '0' as int else c as int - 'a' as int + 10
  }

  function Pow16(n: nat): (r: nat)
    ensures r >= 1
  {
    if n == 0 then 1 else 16 * Pow16(n - 1)
  }

  /** `format!("{:0width$x}", n)` for `n < 16^width`: lowercase hex digits, most significant first, zero-padded. */
  function Hex(n: nat, width: nat): (s: string)
    ensures |s| == width && forall i :: 0 <= i < |s| ==> IsLowerHex(s[i])
  {
    if width == 0 then [] else Hex(n / 16, width - 1) + [HexDigit(n % 16)]
  }

  /** The value of a string of lowercase hex digits, most significant first. */
  function HexValue(s: string): nat
    requires forall i :: 0 <= i < |s| ==> IsLowerHex(s[i])
  {
    if s == [] then 0 else 16 * HexValue(s[..|s| - 1]) + HexDigitValue(s[|s| - 1])
  }

  /** Reading the digits back gives the number modulo 16^width: the padded numeral of a small enough number is exact. */
  lemma {:induction false} HexValueOfHex(n: nat, width: nat)
    ensures HexValue(Hex(n, width)) == n % Pow16(width)
  {
    if width > 0 {
      HexValueStep(n, width);
      HexValueOfHex(n / 16, width - 1);
      Arith.ModProduct(n, 16, Pow16(width - 1));
    }
  }

  /** The last digit of a padded numeral is the number's lowest hex digit; the rest is the numeral of the number shifted right by four bits. */
  lemma HexValueStep(n: nat, width: nat)
    requires width > 0
    ensures HexValue(Hex(n, width)) == 16 * HexValue(Hex(n / 16, width - 1)) + n % 16
  {
    var s := Hex(n, width);
    assert s[..|s| - 1] == Hex(n / 16, width - 1);
    assert HexDigitValue(s[|s| - 1]) == n % 16;
  }

  lemma Pow16Value()
    ensures Pow16(16) == U64_MODULUS
  {
    assert Pow16(4) == 0x1_0000;
    assert Pow16(8) == 0x1_0000 * Pow16(4);
    assert Pow16(12) == 0x1_0000 * Pow16(8);
    assert Pow16(16) == 0x1_0000 * Pow16(12);
  }

  /** Sixteen hex digits tell every `u64` apart. */
  lemma Hex16Injective(x: u64, y: u64)
    requires Hex(x, 16) == Hex(y, 16)
    ensures x == y
  {
    var width := 16;
    HexValueOfHex(x, width);
    HexValueOfHex(y, width);
    Pow16Value();
    Arith.DivModUnique(x, Pow16(width), 0, x);
    Arith.DivModUnique(y, Pow16(width), 0, y);
  }

  /** `create_computation_hash`: the mixed combined word as sixteen lowercase hex digits. */
  function ComputationHash(c1: u32, c2: u32, c3: u32): (h: string)
    ensures |h| == 16 && forall i :: 0 <= i < |h| ==> IsLowerHex(h[i])
  {
    Hex(Mix(Combine(c1, c2, c3)), 16)
  }

  /**
   * Distinct count triples whose two lower counts fit in 16 bits have
   * distinct hashes: the hex digits give back the mixed word, the mixing is
   * invertible and the fields of the combined word do not overlap.
   */
  lemma ComputationHashInjective(a1: u32, a2: u32, a3: u32, b1: u32, b2: u32, b3: u32)
    requires a2 < HALF_WORD && a3 < HALF_WORD && b2 < HALF_WORD && b3 < HALF_WORD
    requires ComputationHash(a1, a2, a3) == ComputationHash(b1, b2, b3)
    ensures a1 == b1 && a2 == b2 && a3 == b3
  {
    var x, y := Combine(a1, a2, a3), Combine(b1, b2, b3);
    Hex16Injective(Mix(x), Mix(y));
    MixInjective(x, y);
    CombineInjective(a1, a2, a3, b1, b2, b3);
  }

  // ---------------------------------------------------------------------
  // The tally

  /** The output the guest commits for a list of votes: each count modulo 1024, their sum, and the hash of the counts. */
  function ExpectedTally(votes: seq<EncryptedVote>): (out: VoteTallyOutput)
    ensures out.option1Count < PLAINTEXT_MODULUS && out.option2Count < PLAINTEXT_MODULUS && out.option3Count < PLAINTEXT_MODULUS
    ensures out.totalVotes == out.option1Count + out.option2Count + out.option3Count
  {
    var c1 := Count(votes, Option1) % PLAINTEXT_MODULUS;
    var c2 := Count(votes, Option2) % PLAINTEXT_MODULUS;
    var c3 := Count(votes, Option3) % PLAINTEXT_MODULUS;
    VoteTallyOutput(c1, c2, c3, c1 + c2 + c3, ComputationHash(c1, c2, c3))
  }

  /** With fewer than 1024 votes nothing wraps: the committed counts are the true counts and they add up to the number of votes. */
  lemma ExpectedTallyExact(votes: seq<EncryptedVote>)
    requires |votes| < PLAINTEXT_MODULUS
    ensures var out := ExpectedTally(votes);
      && out.option1Count == Count(votes, Option1)
      && out.option2Count == Count(votes, Option2)
      && out.option3Count == Count(votes, Option3)
      && out.totalVotes == |votes|
  {
    CountsPartition(votes);
    var n1, n2, n3 := Count(votes, Option1), Count(votes, Option2), Count(votes, Option3);
    Arith.DivModUnique(n1, PLAINTEXT_MODULUS, 0, n1);
    Arith.DivModUnique(n2, PLAINTEXT_MODULUS, 0, n2);
    Arith.DivModUnique(n3, PLAINTEXT_MODULUS, 0, n3);
  }

  /** Adding an encryption of 1 to a tally that decrypts to `n mod 1024` gives one that decrypts to `(n + 1) mod 1024`. */
  lemma TallyStep(tally: Cipher, vote: Cipher, k: PrivateKey, n: nat)
    requires Decrypt(tally, k) == n % PLAINTEXT_MODULUS && Decrypt(vote, k) == 1
    ensures Decrypt(Sum(tally, vote), k) == (n + 1) % PLAINTEXT_MODULUS
  {
    DecryptSum(tally, vote);
    Arith.ModAdd(n, 1, PLAINTEXT_MODULUS);
  }

  /** The tallies after one more vote: the vote's option gains an encryption of 1, the other two are untouched. */
  method AddVote(tallies: (Cipher, Cipher, Cipher), option: VoteOption, voteCipher: Cipher) returns (r: (Cipher, Cipher, Cipher))
    ensures r.0 == (if option == Option1 then Sum(tallies.0, voteCipher) else tallies.0)
    ensures r.1 == (if option == Option2 then Sum(tallies.1, voteCipher) else tallies.1)
    ensures r.2 == (if option == Option3 then Sum(tallies.2, voteCipher) else tallies.2)
  {
    r := tallies;
    match option {
      case Option1 =>
        var t := Add(tallies.0, voteCipher);
        r := (t, r.1, r.2);
      case Option2 =>
        var t := Add(tallies.1, voteCipher);
        r := (r.0, t, r.2);
      case Option3 =>
        var t := Add(tallies.2, voteCipher);
        r := (r.0, r.1, t);
    }
  }

  /** The tallies decrypt to the vote counts of a prefix of the votes, modulo 1024. */
  predicate TalliesCount(tallies: (Cipher, Cipher, Cipher), k: PrivateKey, votes: seq<EncryptedVote>) {
    && Decrypt(tallies.0, k) == Count(votes, Option1) % PLAINTEXT_MODULUS
    && Decrypt(tallies.1, k) == Count(votes, Option2) % PLAINTEXT_MODULUS
    && Decrypt(tallies.2, k) == Count(votes, Option3) % PLAINTEXT_MODULUS
  }

  /** One vote keeps the tallies counting: `AddVote` turns counts of `votes` into counts of `votes + [vote]`. */
  lemma AddVoteCounts(tallies: (Cipher, Cipher, Cipher), r: (Cipher, Cipher, Cipher), k: PrivateKey,
                      votes: seq<EncryptedVote>, vote: EncryptedVote, voteCipher: Cipher)
    requires TalliesCount(tallies, k, votes) && Decrypt(voteCipher, k) == 1
    requires r.0 == (if vote.voteOption == Option1 then Sum(tallies.0, voteCipher) else tallies.0)
    requires r.1 == (if vote.voteOption == Option2 then Sum(tallies.1, voteCipher) else tallies.1)
    requires r.2 == (if vote.voteOption == Option3 then Sum(tallies.2, voteCipher) else tallies.2)
    ensures TalliesCount(r, k, votes + [vote])
  {
    assert (votes + [vote])[..|votes|] == votes;
    match vote.voteOption {
      case Option1 => TallyStep(tallies.0, voteCipher, k, Count(votes, Option1));
      case Option2 => TallyStep(tallies.1, voteCipher, k, Count(votes, Option2));
      case Option3 => TallyStep(tallies.2, voteCipher, k, Count(votes, Option3));
    }
  }

  /**
   * `tally_encrypted_votes_with_fhe`: generate a key pair, start three
   * tallies at encryptions of 0, add an encryption of 1 to the tally of each
   * vote's option, decrypt the tallies, add them up and hash them. The random
   * key and noise coefficients are parameters.
   */
  method TallyEncryptedVotes(votes: seq<EncryptedVote>, secretDraws: seq<u64>, publicDraws: seq<u64>,
                             zeroNoise: seq<seq<u64>>, voteNoise: seq<seq<u64>>)
    returns (output: VoteTallyOutput)
    requires |secretDraws| == POLYNOMIAL_DEGREE && |publicDraws| == POLYNOMIAL_DEGREE
    requires forall i :: 0 <= i < POLYNOMIAL_DEGREE ==> secretDraws[i] < PLAINTEXT_MODULUS
    requires Reduced(publicDraws)
    requires |zeroNoise| == 3 && forall i :: 0 <= i < 3 ==> ValidNoise(zeroNoise[i])
    requires |voteNoise| == |votes| && forall i :: 0 <= i < |votes| ==> ValidNoise(voteNoise[i])
    ensures output == ExpectedTally(votes)
  {
    var fheRuntime := new PureRustFheRuntime();
    var publicKey, privateKey := fheRuntime.GenerateKeys(secretDraws, publicDraws);
    var tallyOption1 := Encrypt(0, publicKey, zeroNoise[0]);
    var tallyOption2 := Encrypt(0, publicKey, zeroNoise[1]);
    var tallyOption3 := Encrypt(0, publicKey, zeroNoise[2]);
    var tallies := (tallyOption1, tallyOption2, tallyOption3);
    for i := 0 to |votes|
      invariant TalliesCount(tallies, privateKey, votes[..i])
    {
      var encryptedVoteCipher := Encrypt(1, publicKey, voteNoise[i]);
      var next := AddVote(tallies, votes[i].voteOption, encryptedVoteCipher);
      AddVoteCounts(tallies, next, privateKey, votes[..i], votes[i], encryptedVoteCipher);
      assert votes[..i] + [votes[i]] == votes[..i + 1];
      tallies := next;
    }
    assert votes[..|votes|] == votes;
    var option1Count: u32 := Decrypt(tallies.0, privateKey);
    var option2Count: u32 := Decrypt(tallies.1, privateKey);
    var option3Count: u32 := Decrypt(tallies.2, privateKey);
    var totalVotes := option1Count + option2Count + option3Count;
    var computationHash := ComputationHash(option1Count, option2Count, option3Count);
    output := VoteTallyOutput(option1Count, option2Count, option3Count, totalVotes, computationHash);
  }
}
