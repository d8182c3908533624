/**
 * The host's side of a run (`host/src/main.rs`): the seven test votes it
 * submits, and its check of the journal the guest committed against a
 * plain count of those votes.
 */
module HostVerify {
  import opened Words
  import opened Wrappers
  import opened Votes
  import opened Text
  import Arith
  import GuestTally

  const U32_MODULUS: nat := 0x1_0000_0000

  // ---------------------------------------------------------------------
  // The test votes

  /** The voters of `create_test_votes` and their choices, in order. */
  const TEST_VOTERS: seq<(string, VoteOption)> := [
    ("alice", Option1),
    ("bob", Option2),
    ("charlie", Option1),
    ("david", Option3),
    ("eve", Option2),
    ("frank", Option1),
    ("grace", Option2)
  ]

  /**
   * `create_test_votes`: one vote per test voter. The Keccak-based helpers
   * that derive the address, the signature and the placeholder encrypted
   * bytes are parameters.
   */
  function CreateTestVotes(ethAddress: string -> string, sign: (string, VoteOption) -> string,
                           encryptVote: (VoteOption, string) -> seq<u8>): (votes: seq<EncryptedVote>)
    ensures |votes| == |TEST_VOTERS|
    ensures forall i :: 0 <= i < |votes| ==>
      && votes[i].voteOption == TEST_VOTERS[i].1
      && votes[i].voterAddress == ethAddress(TEST_VOTERS[i].0)
  {
    seq(|TEST_VOTERS|, i requires 0 <= i < |TEST_VOTERS| =>
      var address := ethAddress(TEST_VOTERS[i].0);
      var option := TEST_VOTERS[i].1;
      EncryptedVote(address, option, encryptVote(option, address), sign(address, option)))
  }

  /** The test votes are three for option 1, three for option 2 and one for option 3. */
  lemma TestVotesCounts(ethAddress: string -> string, sign: (string, VoteOption) -> string,
                        encryptVote: (VoteOption, string) -> seq<u8>)
    ensures var votes := CreateTestVotes(ethAddress, sign, encryptVote);
      && |votes| == 7
      && Count(votes, Option1) == 3
      && Count(votes, Option2) == 3
      && Count(votes, Option3) == 1
  {
    var votes := CreateTestVotes(ethAddress, sign, encryptVote);
    assert votes[..0] == [] && votes[..7] == votes;
    forall o: VoteOption
      ensures Count(votes, o) == (if o == Option1 then 3 else if o == Option2 then 3 else 1)
    {
      CountPrefixStep(votes, 0, o);
      CountPrefixStep(votes, 1, o);
      CountPrefixStep(votes, 2, o);
      CountPrefixStep(votes, 3, o);
      CountPrefixStep(votes, 4, o);
      CountPrefixStep(votes, 5, o);
      CountPrefixStep(votes, 6, o);
    }
  }

  /** One more vote adds one to the count of its own option. */
  lemma CountPrefixStep(votes: seq<EncryptedVote>, i: nat, option: VoteOption)
    requires i < |votes|
    ensures Count(votes[..i + 1], option) == Count(votes[..i], option) + (if votes[i].voteOption == option then 1 else 0)
  {
    assert votes[..i + 1][..i] == votes[..i];
  }

  // ---------------------------------------------------------------------
  // verify_results

  /** The host's own count of one option, in a `u32` counter that wraps as in a release build. */
  function HostCount(votes: seq<EncryptedVote>, option: VoteOption): u32 {
    Count(votes, option) % U32_MODULUS
  }

  function CountMismatch(name: string, expected: nat, got: nat): string {
    name + " count mismatch: expected " + NatToString(expected) + ", got " + NatToString(got)
  }

  function TotalMismatch(expected: nat, got: nat): string {
    "Total count mismatch: expected " + NatToString(expected) + ", got " + NatToString(got)
  }

  /** The answer of `verify_results`: the checks of option 1, 2, 3 and the total, in that order; the first failing one is reported. */
  function VerifyVerdict(votes: seq<EncryptedVote>, output: VoteTallyOutput): Result<(), string> {
    var c1, c2, c3 := HostCount(votes, Option1), HostCount(votes, Option2), HostCount(votes, Option3);
    var total := (c1 + c2 + c3) % U32_MODULUS;
    if output.option1Count != c1 then Err(CountMismatch("Option1", c1, output.option1Count))
    else if output.option2Count != c2 then Err(CountMismatch("Option2", c2, output.option2Count))
    else if output.option3Count != c3 then Err(CountMismatch("Option3", c3, output.option3Count))
    else if output.totalVotes != total then Err(TotalMismatch(total, output.totalVotes))
    else Ok(())
  }

  /** The counting loop of `verify_results`: one `u32` counter per option, bumped by each vote. */
  method CountVotes(votes: seq<EncryptedVote>) returns (option1Count: u32, option2Count: u32, option3Count: u32)
    ensures option1Count == HostCount(votes, Option1)
    ensures option2Count == HostCount(votes, Option2)
    ensures option3Count == HostCount(votes, Option3)
  {
    option1Count, option2Count, option3Count := 0, 0, 0;
    for i := 0 to |votes|
      invariant option1Count == HostCount(votes[..i], Option1)
      invariant option2Count == HostCount(votes[..i], Option2)
      invariant option3Count == HostCount(votes[..i], Option3)
    {
      HostCountStep(votes, i, Option1);
      HostCountStep(votes, i, Option2);
      HostCountStep(votes, i, Option3);
      match votes[i].voteOption {
        case Option1 => option1Count := (option1Count + 1) % U32_MODULUS;
        case Option2 => option2Count := (option2Count + 1) % U32_MODULUS;
        case Option3 => option3Count := (option3Count + 1) % U32_MODULUS;
      }
    }
    assert votes[..|votes|] == votes;
  }

  /** A vote bumps the wrapping counter of its own option and leaves the others alone. */
  lemma HostCountStep(votes: seq<EncryptedVote>, i: nat, option: VoteOption)
    requires i < |votes|
    ensures HostCount(votes[..i + 1], option) ==
      if votes[i].voteOption == option then (HostCount(votes[..i], option) + 1) % U32_MODULUS else HostCount(votes[..i], option)
  {
    CountPrefixStep(votes, i, option);
    Arith.ModAdd(Count(votes[..i], option), 1, U32_MODULUS);
  }

  /**
   * `verify_results`: count the votes of each option, then compare the
   * committed counts and total with the host's own, returning at the first
   * mismatch.
   */
  method VerifyResults(votes: seq<EncryptedVote>, output: VoteTallyOutput) returns (r: Result<(), string>)
    ensures r == VerifyVerdict(votes, output)
  {
    var option1Count, option2Count, option3Count := CountVotes(votes);
    if output.option1Count != option1Count {
      return Err(CountMismatch("Option1", option1Count, output.option1Count));
    }
    if output.option2Count != option2Count {
      return Err(CountMismatch("Option2", option2Count, output.option2Count));
    }
    if output.option3Count != option3Count {
      return Err(CountMismatch("Option3", option3Count, output.option3Count));
    }
    var total := (option1Count + option2Count + option3Count) % U32_MODULUS;
    if output.totalVotes != total {
      return Err(TotalMismatch(total, output.totalVotes));
    }
    r := Ok(());
  }

  /**
   * With fewer than 2^32 votes nothing wraps, and the host accepts an output
   * exactly when each committed count is the number of votes for that
   * option and the committed total is the number of votes.
   */
  lemma VerifyAcceptsExactly(votes: seq<EncryptedVote>, output: VoteTallyOutput)
    requires |votes| < U32_MODULUS
    ensures VerifyVerdict(votes, output).Ok? <==>
      && output.option1Count == Count(votes, Option1)
      && output.option2Count == Count(votes, Option2)
      && output.option3Count == Count(votes, Option3)
      && output.totalVotes == |votes|
  {
    HostCountsExact(votes);
    VerdictOk(votes, output);
  }

  /** With fewer than 2^32 votes no counter wraps: the host's counts are the true counts and they sum to the number of votes. */
  lemma HostCountsExact(votes: seq<EncryptedVote>)
    requires |votes| < U32_MODULUS
    ensures HostCount(votes, Option1) == Count(votes, Option1)
    ensures HostCount(votes, Option2) == Count(votes, Option2)
    ensures HostCount(votes, Option3) == Count(votes, Option3)
    ensures (HostCount(votes, Option1) + HostCount(votes, Option2) + HostCount(votes, Option3)) % U32_MODULUS == |votes|
  {
    CountsPartition(votes);
    NoWrap(Count(votes, Option1));
    NoWrap(Count(votes, Option2));
    NoWrap(Count(votes, Option3));
    NoWrap(|votes|);
  }

  /** The verdict is a pass exactly when all four committed numbers equal the host's. */
  lemma VerdictOk(votes: seq<EncryptedVote>, output: VoteTallyOutput)
    ensures var c1, c2, c3 := HostCount(votes, Option1), HostCount(votes, Option2), HostCount(votes, Option3);
      VerifyVerdict(votes, output).Ok? <==>
        && output.option1Count == c1 && output.option2Count == c2 && output.option3Count == c3
        && output.totalVotes == (c1 + c2 + c3) % U32_MODULUS
  {
  }

  lemma NoWrap(n: nat)
    requires n < U32_MODULUS
    ensures n % U32_MODULUS == n
  {
    Arith.DivModUnique(n, U32_MODULUS, 0, n);
  }

  /** A wrong option-1 count is what gets reported, whatever else is wrong, and it names the true count. */
  lemma Option1CheckedFirst(votes: seq<EncryptedVote>, output: VoteTallyOutput)
    requires |votes| < U32_MODULUS && output.option1Count != Count(votes, Option1)
    ensures VerifyVerdict(votes, output) == Err(CountMismatch("Option1", Count(votes, Option1), output.option1Count))
  {
    NoWrap(Count(votes, Option1));
  }

  /** Once option 1 matches, a wrong option-2 count is reported before anything else. */
  lemma Option2CheckedSecond(votes: seq<EncryptedVote>, output: VoteTallyOutput)
    requires |votes| < U32_MODULUS
    requires output.option1Count == Count(votes, Option1) && output.option2Count != Count(votes, Option2)
    ensures VerifyVerdict(votes, output) == Err(CountMismatch("Option2", Count(votes, Option2), output.option2Count))
  {
    NoWrap(Count(votes, Option1));
    NoWrap(Count(votes, Option2));
  }

  /** With options 1 and 2 right, a wrong option-3 count is reported before the total. */
  lemma Option3CheckedThird(votes: seq<EncryptedVote>, output: VoteTallyOutput)
    requires |votes| < U32_MODULUS
    requires output.option1Count == Count(votes, Option1) && output.option2Count == Count(votes, Option2)
    requires output.option3Count != Count(votes, Option3)
    ensures VerifyVerdict(votes, output) == Err(CountMismatch("Option3", Count(votes, Option3), output.option3Count))
  {
    NoWrap(Count(votes, Option1));
    NoWrap(Count(votes, Option2));
    NoWrap(Count(votes, Option3));
  }

  /**
   * The guest counts modulo 1024, so the host accepts the guest's output for
   * a vote list exactly when every option has fewer than 1024 votes.
   */
  lemma HostAcceptsGuestTally(votes: seq<EncryptedVote>)
    requires |votes| < U32_MODULUS
    ensures VerifyVerdict(votes, GuestTally.ExpectedTally(votes)).Ok? <==>
      Count(votes, Option1) < 1024 && Count(votes, Option2) < 1024 && Count(votes, Option3) < 1024
  {
    var out := GuestTally.ExpectedTally(votes);
    VerifyAcceptsExactly(votes, out);
    CountsPartition(votes);
    var n1, n2, n3 := Count(votes, Option1), Count(votes, Option2), Count(votes, Option3);
    if n1 < 1024 && n2 < 1024 && n3 < 1024 {
      Arith.DivModUnique(n1, 1024, 0, n1);
      Arith.DivModUnique(n2, 1024, 0, n2);
      Arith.DivModUnique(n3, 1024, 0, n3);
    }
  }

  /** The demo run: the guest's output for the seven test votes reports (3, 3, 1) with total 7, and the host accepts it. */
  lemma TestRunAccepted(ethAddress: string -> string, sign: (string, VoteOption) -> string,
                        encryptVote: (VoteOption, string) -> seq<u8>)
    ensures var votes := CreateTestVotes(ethAddress, sign, encryptVote);
      var out := GuestTally.ExpectedTally(votes);
      && out.option1Count == 3 && out.option2Count == 3 && out.option3Count == 1 && out.totalVotes == 7
      && VerifyVerdict(votes, out) == Ok(())
  {
    var votes := CreateTestVotes(ethAddress, sign, encryptVote);
    TestVotesCounts(ethAddress, sign, encryptVote);
    HostAcceptsGuestTally(votes);
    GuestTally.ExpectedTallyExact(votes);
  }
}
