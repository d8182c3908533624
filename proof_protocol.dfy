/**
 * The protocol driver of `fhe_proof_protocol.rs`. It owns a challenger and
 * a log of test results. Each proof test creates a challenge, "executes" the
 * zkVM (a simulation that always succeeds and journals all-zero result
 * ciphertexts), cuts the journal back into 512-byte results, has the
 * challenger verify them and appends one entry to the log. The report
 * counts the passed and failed tests.
 */
module ProofProtocol {
  import opened Wrappers
  import opened Words
  import opened Challenger

  /** `32 * 2 * 8`: the byte size of one result ciphertext, the same as `CIPHER_BYTES`. */
  const RESULT_SIZE: nat := 32 * 2 * 8

  datatype ZkVmProofResult = ZkVmProofResult(
    receipt: seq<u8>,
    journalData: seq<u8>,
    executionLog: seq<string>,
    imageId: string)

  datatype ProtocolTestResult = ProtocolTestResult(
    testId: string,
    challengeInput: ChallengeInput,
    zkvmResult: Option<ZkVmProofResult>,
    verification: Option<VerificationResult>,
    proofValid: bool)

  /** The random draws one challenge consumes: its plaintexts, one noise sample and 63 coefficients per ciphertext, and the clock. */
  datatype ChallengeDraws = ChallengeDraws(plaintexts: seq<i64>, noiseSamples: seq<u64>, coeffSamples: seq<seq<u64>>, timestamp: u64)

  /** Draws that fit a challenge of `n` ciphertexts, with plaintexts in 0..3 as `create_challenge` draws them. */
  predicate ValidDraws(draws: ChallengeDraws, n: nat) {
    && |draws.plaintexts| == n && |draws.noiseSamples| == n && |draws.coeffSamples| == n
    && forall i :: 0 <= i < n ==> 0 <= draws.plaintexts[i] < 3 && |draws.coeffSamples[i]| == CIPHER_WORDS - 1
  }

  // ---------------------------------------------------------------------
  // The simulated zkVM run and the journal layout

  /** `simulate_fhe_results`: one all-zero result per challenge ciphertext plus one for the final sum. */
  function SimulatedJournal(challenge: ChallengeInput): (journal: seq<u8>)
    ensures |journal| == (|challenge.challengeCiphertexts| + 1) * RESULT_SIZE
  {
    seq((|challenge.challengeCiphertexts| + 1) * RESULT_SIZE, _ => 0)
  }

  /**
   * `extract_result_ciphertexts`: as many whole 512-byte results as the
   * journal holds. The fallback to a zero buffer is never taken, since each
   * chunk ends within the journal.
   */
  function ExtractResultCiphertexts(journal: seq<u8>): (chunks: seq<seq<u8>>)
    ensures |chunks| == |journal| / RESULT_SIZE
    ensures forall i :: 0 <= i < |chunks| ==> chunks[i] == journal[i * RESULT_SIZE..i * RESULT_SIZE + RESULT_SIZE]
  {
    seq(|journal| / RESULT_SIZE, i requires 0 <= i < |journal| / RESULT_SIZE =>
      var start := i * RESULT_SIZE;
      var end := start + RESULT_SIZE;
      if end <= |journal| then journal[start..end] else seq(RESULT_SIZE, _ => 0))
  }

  /** The results laid end to end. */
  function Flatten(chunks: seq<seq<u8>>): seq<u8> {
    if chunks == [] then [] else Flatten(chunks[..|chunks| - 1]) + chunks[|chunks| - 1]
  }

  /** Cutting a journal into results loses only the trailing partial result: laid end to end they give back every whole one. */
  lemma ExtractFlatten(journal: seq<u8>)
    ensures Flatten(ExtractResultCiphertexts(journal)) == journal[..|journal| / RESULT_SIZE * RESULT_SIZE]
  {
    var chunks := ExtractResultCiphertexts(journal);
    if chunks != [] {
      FlattenPrefix(journal, chunks, RESULT_SIZE, |chunks|);
      assert chunks[..|chunks|] == chunks;
    }
  }

  /** Laying the first `k` of a run of consecutive width-`w` slices of `s` end to end gives the first `k * w` bytes of `s`. */
  lemma {:induction false} FlattenPrefix(s: seq<u8>, chunks: seq<seq<u8>>, w: nat, k: nat)
    requires forall i :: 0 <= i < |chunks| ==> i * w + w <= |s| && chunks[i] == s[i * w..i * w + w]
    requires 0 < k <= |chunks|
    ensures k * w <= |s| && Flatten(chunks[..k]) == s[..k * w]
  {
    var lo := (k - 1) * w;
    assert lo + w == k * w;
    var prefix := chunks[..k];
    assert prefix[..k - 1] == chunks[..k - 1];
    if k == 1 {
      assert chunks[..0] == [];
    } else {
      FlattenPrefix(s, chunks, w, k - 1);
    }
    PrefixSplit(s, lo, lo + w);
  }

  lemma PrefixSplit(s: seq<u8>, i: nat, j: nat)
    requires i <= j <= |s|
    ensures s[..j] == s[..i] + s[i..j]
  {
  }

  /** The simulated journal cuts into one all-zero 512-byte result per challenge ciphertext, plus one. */
  lemma ExtractSimulated(challenge: ChallengeInput)
    ensures var results := ExtractResultCiphertexts(SimulatedJournal(challenge));
      |results| == |challenge.challengeCiphertexts| + 1 && ZeroResults(results)
  {
    var journal := SimulatedJournal(challenge);
    var results := ExtractResultCiphertexts(journal);
    forall j | 0 <= j < |results|
      ensures |results[j]| == CIPHER_BYTES && forall i :: 0 <= i < CIPHER_BYTES ==> results[j][i] == 0
    {
      assert results[j] == journal[j * RESULT_SIZE..j * RESULT_SIZE + RESULT_SIZE];
    }
  }

  const EXECUTION_LOG: seq<string> := [
    "FHE runtime initialized",
    "External public key loaded",
    "Challenge ciphertexts deserialized",
    "Homomorphic addition performed",
    "Results serialized to journal",
    "Proof generation completed"
  ]

  /** `execute_zkvm_with_challenge`: the simulation always succeeds, with a 32-byte zero receipt and the simulated journal. */
  function ZkvmExecution(challenge: ChallengeInput): (r: Option<ZkVmProofResult>)
    ensures r.Some? && r.value.journalData == SimulatedJournal(challenge)
  {
    Some(ZkVmProofResult(seq(32, _ => 0), SimulatedJournal(challenge), EXECUTION_LOG, "sha256:abcd1234..."))
  }

  const ZKVM_FAILED_RESULT := VerificationResult(false, Some("zkVM execution failed"), None, ["ZKVM_EXECUTION_FAILED"])

  /** The verification `run_proof_test` records for a zkVM outcome: a failed run fails outright, a finished one goes to the challenger. */
  function VerificationOf(challenge: ChallengeInput, zkvmResult: Option<ZkVmProofResult>): VerificationResult {
    match zkvmResult
    case None => ZKVM_FAILED_RESULT
    case Some(result) =>
      Verdict(challenge.challengeMetadata.challengePlaintexts, VerifyReceipt(result.receipt),
              ExtractResultCiphertexts(result.journalData))
  }

  /** A run whose zkVM execution failed never counts as a proof, and it says why. */
  lemma FailedExecutionFails(challenge: ChallengeInput)
    ensures !VerificationOf(challenge, None).success
    ensures VerificationOf(challenge, None).error == Some("zkVM execution failed")
  {
  }

  /**
   * With plaintexts drawn from 0..3, the simulated run's all-zero results
   * add up to the challenge sum only when every drawn plaintext is 0: that
   * is exactly when a proof test passes.
   */
  lemma SimulatedRunPasses(challenge: ChallengeInput)
    requires forall j :: 0 <= j < |challenge.challengeMetadata.challengePlaintexts| ==>
      0 <= challenge.challengeMetadata.challengePlaintexts[j] < 3
    ensures VerificationOf(challenge, ZkvmExecution(challenge)).success <==>
      forall j :: 0 <= j < |challenge.challengeMetadata.challengePlaintexts| ==> challenge.challengeMetadata.challengePlaintexts[j] == 0
  {
    ExtractSimulated(challenge);
    ZeroResultsVerdict(challenge.challengeMetadata.challengePlaintexts, ExtractResultCiphertexts(SimulatedJournal(challenge)));
  }

  /** `verify_zkvm_proof`: cut the journal into results and let the challenger verify them. */
  method VerifyZkvmProof(challenger: ExternalChallenger, challenge: ChallengeInput, zkvmResult: ZkVmProofResult)
    returns (verification: VerificationResult)
    ensures verification == VerificationOf(challenge, Some(zkvmResult))
  {
    var resultCiphertexts := ExtractResultCiphertexts(zkvmResult.journalData);
    verification := VerifyZkvmResult(challenger, challenge, VerifyReceipt(zkvmResult.receipt), resultCiphertexts);
  }

  /** The `match` of `run_proof_test` on the zkVM outcome. */
  method VerifyOutcome(challenger: ExternalChallenger, challenge: ChallengeInput, zkvmResult: Option<ZkVmProofResult>)
    returns (verification: VerificationResult)
    ensures verification == VerificationOf(challenge, zkvmResult)
  {
    match zkvmResult {
      case Some(result) =>
        verification := VerifyZkvmProof(challenger, challenge, result);
      case None =>
        verification := ZKVM_FAILED_RESULT;
    }
  }

  // ---------------------------------------------------------------------
  // The report's counts

  /** The number of logged tests whose proof was valid. */
  function SuccessfulTests(results: seq<ProtocolTestResult>): (n: nat)
    ensures n <= |results|
  {
    if results == [] then 0
    else SuccessfulTests(results[..|results| - 1]) + (if results[|results| - 1].proofValid then 1 else 0)
  }

  /** The counts `generate_proof_report` prints, and whether it declares the proof established. */
  datatype ReportSummary = ReportSummary(totalTests: nat, successfulTests: nat, failedTests: nat, established: bool)

  function Summary(results: seq<ProtocolTestResult>): (s: ReportSummary)
    ensures s.totalTests == |results| && s.successfulTests + s.failedTests == s.totalTests
    ensures s.established <==> exists i :: 0 <= i < |results| && results[i].proofValid
  {
    var successful := SuccessfulTests(results);
    SuccessfulWitness(results);
    ReportSummary(|results|, successful, |results| - successful, successful > 0)
  }

  /** Some logged test passed exactly when the count of passed tests is positive. */
  lemma {:induction false} SuccessfulWitness(results: seq<ProtocolTestResult>)
    ensures SuccessfulTests(results) > 0 <==> exists i :: 0 <= i < |results| && results[i].proofValid
  {
    if results != [] {
      var init := results[..|results| - 1];
      SuccessfulWitness(init);
      if SuccessfulTests(init) > 0 {
        var i :| 0 <= i < |init| && init[i].proofValid;
        assert results[i].proofValid;
      }
      if exists i :: 0 <= i < |results| && results[i].proofValid {
        var i :| 0 <= i < |results| && results[i].proofValid;
        if i < |init| {
          assert init[i].proofValid;
        }
      }
    }
  }

  /** Logging one more test adds one to the passed count if it passed and one to the failed count otherwise. */
  lemma SummaryAppend(results: seq<ProtocolTestResult>, entry: ProtocolTestResult)
    ensures var before, after := Summary(results), Summary(results + [entry]);
      && after.totalTests == before.totalTests + 1
      && after.successfulTests == before.successfulTests + (if entry.proofValid then 1 else 0)
      && after.failedTests == before.failedTests + (if entry.proofValid then 0 else 1)
  {
    assert (results + [entry])[..|results|] == results;
  }

  /** A log of three tests counts three passes exactly when each of the three passed. */
  lemma ThreeTestsSummary(log: seq<ProtocolTestResult>)
    requires |log| == 3
    ensures Summary(log).totalTests == 3
    ensures Summary(log).successfulTests == 3 <==> log[0].proofValid && log[1].proofValid && log[2].proofValid
  {
    SummaryAppend([], log[0]);
    assert [] + [log[0]] == log[..1];
    SummaryAppend(log[..1], log[1]);
    assert log[..1] + [log[1]] == log[..2];
    SummaryAppend(log[..2], log[2]);
    assert log[..2] + [log[2]] == log;
  }

  // ---------------------------------------------------------------------
  // The driver

  /**
   * The log entry of one proof test: the challenge built from the draws, the
   * simulated zkVM outcome, its verification, and `proof_valid` equal to the
   * verification's `success`.
   */
  function ProofTestEntry(challenger: ExternalChallenger, testId: string, draws: ChallengeDraws): (entry: ProtocolTestResult)
    requires ValidDraws(draws, |draws.plaintexts|)
    ensures entry.testId == testId && entry.zkvmResult.Some? && entry.verification.Some?
    ensures entry.zkvmResult == ZkvmExecution(entry.challengeInput)
    ensures entry.proofValid == entry.verification.value.success
    ensures entry.proofValid <==> forall i :: 0 <= i < |draws.plaintexts| ==> draws.plaintexts[i] == 0
  {
    var challengeInput := Challenge(challenger, testId, draws.plaintexts, draws.noiseSamples, draws.coeffSamples, draws.timestamp);
    var zkvmResult := ZkvmExecution(challengeInput);
    var verification := VerificationOf(challengeInput, zkvmResult);
    SimulatedRunPasses(challengeInput);
    ProtocolTestResult(testId, challengeInput, zkvmResult, Some(verification), verification.success)
  }

  class FheProofProtocol {
    var challenger: ExternalChallenger
    var testResults: seq<ProtocolTestResult>

    /** `FheProofProtocol::new`: a fresh challenger and an empty log. */
    constructor (secretDraws: seq<u64>, publicDraws: seq<u64>)
      requires |secretDraws| == Challenger.POLYNOMIAL_DEGREE && |publicDraws| == Challenger.POLYNOMIAL_DEGREE
      requires forall i :: 0 <= i < Challenger.POLYNOMIAL_DEGREE ==>
        secretDraws[i] < PLAINTEXT_MODULUS && publicDraws[i] < CIPHERTEXT_MODULUS
      ensures challenger.parameters == PARAMETERS && KeysInRange(challenger.keys)
      ensures testResults == []
    {
      var externalChallenger := NewChallenger(secretDraws, publicDraws);
      challenger := externalChallenger;
      testResults := [];
    }

    /** The report's counts over the log so far. */
    function ReportCounts(): ReportSummary
      reads this
    {
      Summary(testResults)
    }

    /**
     * `run_proof_test`: create a challenge, run the simulated zkVM, verify
     * its outcome and append one entry to the log. The returned verdict is
     * the logged `proof_valid` and the verification's `success`.
     */
    method RunProofTest(testId: string, numChallenges: nat, draws: ChallengeDraws) returns (proofValid: bool)
      requires ValidDraws(draws, numChallenges)
      modifies this
      ensures challenger == old(challenger)
      ensures testResults == old(testResults) + [ProofTestEntry(challenger, testId, draws)]
      ensures proofValid == ProofTestEntry(challenger, testId, draws).proofValid
      ensures proofValid <==> forall i :: 0 <= i < numChallenges ==> draws.plaintexts[i] == 0
    {
      var challengeInput := CreateChallenge(challenger, testId, numChallenges,
                                            draws.plaintexts, draws.noiseSamples, draws.coeffSamples, draws.timestamp);
      var zkvmResult := ZkvmExecution(challengeInput);
      var verification := VerifyOutcome(challenger, challengeInput, zkvmResult);
      SimulatedRunPasses(challengeInput);
      proofValid := verification.success;
      var testResult := ProtocolTestResult(testId, challengeInput, zkvmResult, Some(verification), proofValid);
      testResults := testResults + [testResult];
    }
  }

  /**
   * `demonstrate_mathematical_proof`: three proof tests of 3, 7 and 15
   * challenges on a fresh protocol. All three pass exactly when every drawn
   * plaintext of every test is 0, and the report then counts three tests.
   */
  method DemonstrateMathematicalProof(secretDraws: seq<u64>, publicDraws: seq<u64>,
                                      draws1: ChallengeDraws, draws2: ChallengeDraws, draws3: ChallengeDraws)
    returns (allTestsPassed: bool, summary: ReportSummary)
    requires |secretDraws| == Challenger.POLYNOMIAL_DEGREE && |publicDraws| == Challenger.POLYNOMIAL_DEGREE
    requires forall i :: 0 <= i < Challenger.POLYNOMIAL_DEGREE ==>
      secretDraws[i] < PLAINTEXT_MODULUS && publicDraws[i] < CIPHERTEXT_MODULUS
    requires ValidDraws(draws1, 3) && ValidDraws(draws2, 7) && ValidDraws(draws3, 15)
    ensures allTestsPassed <==>
      && (forall i :: 0 <= i < 3 ==> draws1.plaintexts[i] == 0)
      && (forall i :: 0 <= i < 7 ==> draws2.plaintexts[i] == 0)
      && (forall i :: 0 <= i < 15 ==> draws3.plaintexts[i] == 0)
    ensures summary.totalTests == 3
    ensures allTestsPassed <==> summary.successfulTests == 3
  {
    var protocol := new FheProofProtocol(secretDraws, publicDraws);
    var test1Passed := protocol.RunProofTest("small_challenge", 3, draws1);
    var test2Passed := protocol.RunProofTest("medium_challenge", 7, draws2);
    var test3Passed := protocol.RunProofTest("large_challenge", 15, draws3);
    ThreeTestsSummary(protocol.testResults);
    assert protocol.testResults[0].proofValid == test1Passed;
    summary := protocol.ReportCounts();
    allTestsPassed := test1Passed && test2Passed && test3Passed;
  }
}
