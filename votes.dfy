/**
 * The voting records shared by the host and the guest: the three ballot
 * options, a submitted vote and the committed tally.
 */
module Votes {
  import opened Words

  /** The three ballot options; the Rust enum gives them the discriminants 1, 2 and 3. */
  datatype VoteOption = Option1 | Option2 | Option3 {

    /** `option as usize`. */
    function Number(): (n: nat)
      ensures 1 <= n <= 3
    {
      match this
      case Option1 => 1
      case Option2 => 2
      case Option3 => 3
    }

    /** The constant description the host prints next to each count. */
    function Description(): string {
      match this
      case Option1 => "Increase block size"
      case Option2 => "Implement Layer 2 scaling"
      case Option3 => "Maintain current parameters"
    }
  }

  /**
   * A vote as the host builds it. The guest's own copy of this record names
   * the choice `actual_choice` and carries an encrypted vote vector instead
   * of `encrypted_data`; the guest's tally loop nevertheless reads
   * `vote_option`, so the model uses this one record for both sides.
   */
  datatype EncryptedVote = EncryptedVote(
    voterAddress: string,
    voteOption: VoteOption,
    encryptedData: seq<u8>,
    signature: string)

  /** What the guest commits to the journal. */
  datatype VoteTallyOutput = VoteTallyOutput(
    option1Count: u32,
    option2Count: u32,
    option3Count: u32,
    totalVotes: u32,
    computationHash: string)

  /** The number of votes for `option`, counted from the front. */
  function Count(votes: seq<EncryptedVote>, option: VoteOption): (n: nat)
    ensures n <= |votes|
  {
    if votes == [] then 0
    else Count(votes[..|votes| - 1], option) + (if votes[|votes| - 1].voteOption == option then 1 else 0)
  }

  /** Every vote is for exactly one option, so the three counts add up to the number of votes. */
  lemma {:induction false} CountsPartition(votes: seq<EncryptedVote>)
    ensures Count(votes, Option1) + Count(votes, Option2) + Count(votes, Option3) == |votes|
  {
    if votes != [] {
      CountsPartition(votes[..|votes| - 1]);
    }
  }
}
