/**
 * The comparison program's readers of captured program output
 * (`zkvm_fhe_proof.rs`): one pulls the three candidate tallies out of the
 * standalone FHE demo's report, the other pulls the three option counts out
 * of the host's summary of a zkVM run.
 */
module OutputParsers {
  import opened Wrappers
  import opened Words
  import opened Text
  import opened Votes
  import opened Lexing

  /** The three counts each reader returns, as Rust's `(i64, i64, i64)`. */
  type Tally = (i64, i64, i64)

  /** `s.parse::<i64>().unwrap_or(0)`. */
  function ParseOrZero(s: string): i64 {
    match ParseI64(s)
    case Some(v) => v
    case None => 0
  }

  // ---------------------------------------------------------------------
  // extract_voting_results

  /** `lines.iter().position(|&l| l == line)`. */
  function Position(lines: seq<string>, line: string): (r: Option<nat>)
    ensures r.Some? ==> r.value < |lines| && lines[r.value] == line
    ensures r.Some? ==> forall j :: 0 <= j < r.value ==> lines[j] != line
    ensures r.None? <==> line !in lines
  {
    if lines == [] then None
    else if lines[0] == line then Some(0)
    else match Position(lines[1..], line)
      case Some(i) => Some(i + 1)
      case None => None
  }

  /** The lines `extract_voting_results` stops at: those mentioning both "Candidate 1:" and "votes". */
  predicate IsCandidateLine(line: string) {
    Contains(line, "Candidate 1:") && Contains(line, "votes")
  }

  /** The three tokens a candidate report is read from: the third token of each of its lines. */
  type TallyWords = (string, string, string)

  /**
   * What one turn of the loop of `extract_voting_results` finds at line `k`:
   * the tokens it reads the tallies from, or `None` when it moves on.
   */
  function CandidateAt(lines: seq<string>, k: nat): Option<TallyWords>
    requires k < |lines|
  {
    var line := lines[k];
    if !IsCandidateLine(line) then None
    else
      var parts := Tokens(line);
      if |parts| < 4 then None
      else match Position(lines, line)
      case None => None
      case Some(idx) =>
        if idx + 2 >= |lines| then None
        else
          var c2Parts, c3Parts := Tokens(lines[idx + 1]), Tokens(lines[idx + 2]);
          if |c2Parts| >= 4 && |c3Parts| >= 4 then Some((parts[2], c2Parts[2], c3Parts[2])) else None
  }

  /** The tokens `extract_voting_results` reads once lines before `k` have been passed over. */
  function CandidateFrom(lines: seq<string>, k: nat): Option<TallyWords>
    decreases |lines| - k
  {
    if k >= |lines| then None
    else match CandidateAt(lines, k)
      case Some(w) => Some(w)
      case None => CandidateFrom(lines, k + 1)
  }

  /** The answer of `extract_voting_results` on a whole output. */
  function VotingResults(output: string): Tally {
    match CandidateFrom(Lines(output), 0)
    case None => (0, 0, 0)
    case Some(w) => (ParseOrZero(w.0), ParseOrZero(w.1), ParseOrZero(w.2))
  }

  /**
   * `extract_voting_results`: find the first line naming candidate 1 with at
   * least four tokens and two lines after it that have at least four tokens
   * each; read the third token of all three as the tallies, unparsable ones
   * as 0. Without such a line the answer is (0, 0, 0).
   */
  method ExtractVotingResults(output: string) returns (c1: i64, c2: i64, c3: i64)
    ensures (c1, c2, c3) == VotingResults(output)
  {
    var lines := Lines(output);
    for k := 0 to |lines|
      invariant CandidateFrom(lines, k) == CandidateFrom(lines, 0)
    {
      var line := lines[k];
      if Contains(line, "Candidate 1:") && Contains(line, "votes") {
        var parts := Tokens(line);
        if |parts| >= 4 {
          var first := ParseOrZero(parts[2]);
          var position := Position(lines, line);
          if position.Some? && position.value + 2 < |lines| {
            var c2Parts := Tokens(lines[position.value + 1]);
            var c3Parts := Tokens(lines[position.value + 2]);
            if |c2Parts| >= 4 && |c3Parts| >= 4 {
              return first, ParseOrZero(c2Parts[2]), ParseOrZero(c3Parts[2]);
            }
          }
        }
      }
    }
    return 0, 0, 0;
  }

  /** Lines before `m` that do not name candidate 1 are passed over. */
  lemma {:induction false} SkipNonCandidates(lines: seq<string>, k: nat, m: nat)
    requires k <= m <= |lines|
    requires forall j :: k <= j < m ==> !IsCandidateLine(lines[j])
    ensures CandidateFrom(lines, k) == CandidateFrom(lines, m)
    decreases m - k
  {
    if k < m {
      SkipNonCandidates(lines, k + 1, m);
    }
  }

  /** An output with no line naming candidate 1 gives the default (0, 0, 0). */
  lemma NoCandidateLineGivesZeros(output: string)
    requires forall j :: 0 <= j < |Lines(output)| ==> !IsCandidateLine(Lines(output)[j])
    ensures VotingResults(output) == (0, 0, 0)
  {
    SkipNonCandidates(Lines(output), 0, |Lines(output)|);
  }


  // ---------------------------------------------------------------------
  // The standalone demo's report

  /** `format!("  Candidate {}: {} votes (expected: {})", k, tally, expected)`. */
  function CandidateLine(k: nat, tally: i64, expected: i64): string {
    "  Candidate " + NatToString(k) + ": " + IntToString(tally) + " votes (expected: " + IntToString(expected) + ")"
  }

  /** Six words joined by single spaces, written out. */
  lemma UnwordsSix(a: string, b: string, c: string, d: string, e: string, f: string)
    ensures Unwords([a, b, c, d, e, f]) == a + (" " + (b + (" " + (c + (" " + (d + (" " + (e + (" " + f)))))))))
  {
    var w5, w4, w3, w2, w1 := [f], [e, f], [d, e, f], [c, d, e, f], [b, c, d, e, f];
    assert w4[1..] == w5 && w3[1..] == w4 && w2[1..] == w3 && w1[1..] == w2 && [a, b, c, d, e, f][1..] == w1;
    assert Unwords(w4) == e + (" " + f);
    assert Unwords(w3) == d + (" " + Unwords(w4));
    assert Unwords(w2) == c + (" " + Unwords(w3));
    assert Unwords(w1) == b + (" " + Unwords(w2));
  }

  /** The layout of a candidate line, with its literal text cut at its spaces. */
  lemma CandidateShape(lead: string, cand: string, k: string, colon: string, t: string,
                       votes: string, exp: string, e: string, close: string)
    ensures (lead + (cand + " ")) + k + (colon + " ") + t + (" " + (votes + (" " + (exp + " ")))) + e + close
      == lead + Unwords([cand, k + colon, t, votes, exp, e + close])
  {
    UnwordsSix(cand, k + colon, t, votes, exp, e + close);
  }

  /** The literal text of a candidate line, cut at its spaces. */
  lemma CandidateLiterals()
    ensures "  Candidate " == "  " + ("Candidate" + " ")
    ensures ": " == ":" + " "
    ensures " votes (expected: " == " " + ("votes" + (" " + ("(expected:" + " ")))
  {
  }

  lemma CandidateWords()
    ensures IsWord("Candidate") && IsWord("votes") && IsWord("(expected:") && IsWord(":") && IsWord(")")
  {
  }

  /** The tokens of a candidate line: the tally is the third. */
  lemma CandidateLineTokens(k: nat, tally: i64, expected: i64)
    ensures Tokens(CandidateLine(k, tally, expected)) ==
      ["Candidate", NatToString(k) + ":", IntToString(tally), "votes", "(expected:", IntToString(expected) + ")"]
  {
    var kText, tText, eText := NatToString(k), IntToString(tally), IntToString(expected);
    var words := ["Candidate", kText + ":", tText, "votes", "(expected:", eText + ")"];
    CandidateLiterals();
    CandidateShape("  ", "Candidate", kText, ":", tText, "votes", "(expected:", eText, ")");
    FormattedIsWord(k);
    assert IntToString(k) == kText;
    FormattedIsWord(tally);
    FormattedIsWord(expected);
    CandidateWords();
    WordConcat(kText, ":");
    WordConcat(eText, ")");
    TokensOfUnwords(words);
    TokensAfterSpaces("  ", Unwords(words));
  }

  /** The third token of a candidate line, of which there are at least four, is its tally. */
  lemma CandidateLineTally(k: nat, tally: i64, expected: i64)
    ensures |Tokens(CandidateLine(k, tally, expected))| >= 4
    ensures Tokens(CandidateLine(k, tally, expected))[2] == IntToString(tally)
  {
    CandidateLineTokens(k, tally, expected);
  }

  /** What the front of a candidate line contains, the whole line contains. */
  lemma ContainsInFront(front: string, t: string, middle: string, e: string, pat: string)
    requires Contains(front, pat)
    ensures Contains(front + t + middle + e + ")", pat)
  {
    ContainsBefore(front, t, pat);
    ContainsBefore(front + t, middle, pat);
    ContainsBefore(front + t + middle, e, pat);
    ContainsBefore(front + t + middle + e, ")", pat);
  }

  /** What the middle of a candidate line contains, the whole line contains. */
  lemma ContainsInMiddle(front: string, t: string, middle: string, e: string, pat: string)
    requires Contains(middle, pat)
    ensures Contains(front + t + middle + e + ")", pat)
  {
    ContainsAfter(front + t, middle, pat);
    ContainsBefore(front + t + middle, e, pat);
    ContainsBefore(front + t + middle + e, ")", pat);
  }

  /** The line for candidate 1 is one `extract_voting_results` stops at. */
  lemma CandidateOneLineMatches(tally: i64, expected: i64)
    ensures IsCandidateLine(CandidateLine(1, tally, expected))
  {
    var t, e := IntToString(tally), IntToString(expected);
    assert NatToString(1) == "1";
    var front, middle := "  Candidate " + "1" + ": ", " votes (expected: ";
    assert OccursAt(front, "Candidate 1:", 2);
    ContainsInFront(front, t, middle, e, "Candidate 1:");
    assert OccursAt(middle, "votes", 1);
    ContainsInMiddle(front, t, middle, e, "votes");
  }

  lemma CandidateLinePlain(k: nat, tally: i64, expected: i64)
    ensures PlainLine(CandidateLine(k, tally, expected))
  {
    var kText, tText, eText := NatToString(k), IntToString(tally), IntToString(expected);
    FormattedIsWord(tally);
    FormattedIsWord(expected);
    assert '\n' !in kText && '\n' !in tText && '\n' !in eText;
  }

  /** Three plain lines amid plain lines make plain lines. */
  lemma PlainAround(before: seq<string>, line1: string, line2: string, line3: string, after: seq<string>)
    requires forall j :: 0 <= j < |before| ==> PlainLine(before[j])
    requires PlainLine(line1) && PlainLine(line2) && PlainLine(line3)
    requires forall j :: 0 <= j < |after| ==> PlainLine(after[j])
    ensures var lines := before + [line1, line2, line3] + after;
      forall j :: 0 <= j < |lines| ==> PlainLine(lines[j])
  {
  }

  /** The first line equal to line `k` is line `k` when no earlier line equals it. */
  lemma PositionOfFirst(lines: seq<string>, k: nat)
    requires k < |lines| && forall j :: 0 <= j < k ==> lines[j] != lines[k]
    ensures Position(lines, lines[k]) == Some(k)
  {
    var r := Position(lines, lines[k]);
    assert r.Some?;
  }

  /**
   * A line naming candidate 1 that is the first of its kind, followed by two
   * more lines, all three with at least four tokens, is where the reading
   * stops; it takes the third token of each.
   */
  lemma CandidateAtFirst(lines: seq<string>, k: nat)
    requires k + 2 < |lines| && IsCandidateLine(lines[k]) && Position(lines, lines[k]) == Some(k)
    requires |Tokens(lines[k])| >= 4 && |Tokens(lines[k + 1])| >= 4 && |Tokens(lines[k + 2])| >= 4
    ensures CandidateFrom(lines, k) == Some((Tokens(lines[k])[2], Tokens(lines[k + 1])[2], Tokens(lines[k + 2])[2]))
  {
  }

  /**
   * Reading stops at the first of three lines with at least four tokens each
   * when it is the first line naming candidate 1, and takes the third token
   * of each.
   */
  lemma FirstCandidateFound(before: seq<string>, line1: string, line2: string, line3: string, after: seq<string>)
    requires forall j :: 0 <= j < |before| ==> !Contains(before[j], "Candidate 1:")
    requires IsCandidateLine(line1)
    requires |Tokens(line1)| >= 4 && |Tokens(line2)| >= 4 && |Tokens(line3)| >= 4
    ensures CandidateFrom(before + [line1, line2, line3] + after, 0) == Some((Tokens(line1)[2], Tokens(line2)[2], Tokens(line3)[2]))
  {
    var lines := before + [line1, line2, line3] + after;
    var k := |before|;
    assert forall j :: 0 <= j < k ==> lines[j] == before[j];
    assert lines[k] == line1 && lines[k + 1] == line2 && lines[k + 2] == line3;
    SkipNonCandidates(lines, 0, k);
    PositionOfFirst(lines, k);
    CandidateAtFirst(lines, k);
  }

  /** The report's lines print as they are, so they are read back one for one. */
  lemma ReportLinesRead(before: seq<string>, after: seq<string>, t1: i64, t2: i64, t3: i64, e1: i64, e2: i64, e3: i64)
    requires forall j :: 0 <= j < |before| ==> PlainLine(before[j])
    requires forall j :: 0 <= j < |after| ==> PlainLine(after[j])
    ensures var lines := before + [CandidateLine(1, t1, e1), CandidateLine(2, t2, e2), CandidateLine(3, t3, e3)] + after;
      Lines(JoinLines(lines)) == lines
  {
    var line1, line2, line3 := CandidateLine(1, t1, e1), CandidateLine(2, t2, e2), CandidateLine(3, t3, e3);
    CandidateLinePlain(1, t1, e1);
    CandidateLinePlain(2, t2, e2);
    CandidateLinePlain(3, t3, e3);
    PlainAround(before, line1, line2, line3, after);
    LinesOfJoinLines(before + [line1, line2, line3] + after);
  }

  /** Reading the report's lines stops at its first line and takes the printed tallies. */
  lemma ReportFound(before: seq<string>, after: seq<string>, t1: i64, t2: i64, t3: i64, e1: i64, e2: i64, e3: i64)
    requires forall j :: 0 <= j < |before| ==> !Contains(before[j], "Candidate 1:")
    ensures CandidateFrom(before + [CandidateLine(1, t1, e1), CandidateLine(2, t2, e2), CandidateLine(3, t3, e3)] + after, 0)
      == Some((IntToString(t1), IntToString(t2), IntToString(t3)))
  {
    CandidateOneLineMatches(t1, e1);
    CandidateLineTally(1, t1, e1);
    CandidateLineTally(2, t2, e2);
    CandidateLineTally(3, t3, e3);
    FirstCandidateFound(before, CandidateLine(1, t1, e1), CandidateLine(2, t2, e2), CandidateLine(3, t3, e3), after);
  }

  /**
   * The standalone demo's report, printed line by line, is read back as the
   * three tallies it prints: lines before it that do not name candidate 1,
   * and any lines after it, change nothing.
   */
  lemma StandaloneReportRoundTrip(before: seq<string>, after: seq<string>,
                                  t1: i64, t2: i64, t3: i64, e1: i64, e2: i64, e3: i64)
    requires forall j :: 0 <= j < |before| ==> PlainLine(before[j]) && !Contains(before[j], "Candidate 1:")
    requires forall j :: 0 <= j < |after| ==> PlainLine(after[j])
    ensures VotingResults(JoinLines(before + [CandidateLine(1, t1, e1), CandidateLine(2, t2, e2), CandidateLine(3, t3, e3)] + after))
      == (t1, t2, t3)
  {
    ReportLinesRead(before, after, t1, t2, t3, e1, e2, e3);
    ReportFound(before, after, t1, t2, t3, e1, e2, e3);
    ParseFormatted(t1);
    ParseFormatted(t2);
    ParseFormatted(t3);
  }

  // ---------------------------------------------------------------------
  // extract_zkvm_results

  /** The lines `extract_zkvm_results` looks into: those with both "📊" and "votes". */
  predicate IsSummaryLine(line: string) {
    Contains(line, "📊") && Contains(line, "votes")
  }

  /** The two labels that route a line to `option`: its description's key words and its variant name. */
  function Labels(option: VoteOption): (labels: seq<string>)
    ensures |labels| == 2
  {
    match option
    case Option1 => ["Increase block size", "Option1"]
    case Option2 => ["Layer 2 scaling", "Option2"]
    case Option3 => ["current parameters", "Option3"]
  }

  /** `line` mentions one of the labels of `option`. */
  predicate Mentions(line: string, option: VoteOption) {
    Contains(line, Labels(option)[0]) || Contains(line, Labels(option)[1])
  }

  /** The option a summary line is counted for: option 1's labels are checked first, option 3's last. */
  function Route(line: string): Option<VoteOption> {
    if Mentions(line, Option1) then Some(Option1)
    else if Mentions(line, Option2) then Some(Option2)
    else if Mentions(line, Option3) then Some(Option3)
    else None
  }

  /** A line is routed only to an option it mentions, and to the first one it mentions. */
  lemma RouteMentions(line: string)
    ensures Route(line).Some? ==> Mentions(line, Route(line).value)
    ensures Route(line) == None <==> !Mentions(line, Option1) && !Mentions(line, Option2) && !Mentions(line, Option3)
    ensures Route(line) == Some(Option2) ==> !Mentions(line, Option1)
    ensures Route(line) == Some(Option3) ==> !Mentions(line, Option1) && !Mentions(line, Option2)
  {
  }

  /** The count a tally holds for `option`. */
  function CountOf(t: Tally, option: VoteOption): i64 {
    match option
    case Option1 => t.0
    case Option2 => t.1
    case Option3 => t.2
  }

  /** The tally with the count of the routed option replaced by `count`. */
  function Assign(t: Tally, route: Option<VoteOption>, count: i64): (r: Tally)
    ensures forall o: VoteOption :: CountOf(r, o) == if route == Some(o) then count else CountOf(t, o)
  {
    match route
    case None => t
    case Some(Option1) => (count, t.1, t.2)
    case Some(Option2) => (t.0, count, t.2)
    case Some(Option3) => (t.0, t.1, count)
  }

  /** The tally after the token loop over a summary line has looked at its first `n` tokens. */
  function TokenScan(t: Tally, line: string, parts: seq<string>, n: nat): Tally
    requires n <= |parts|
  {
    if n == 0 then t
    else
      var earlier := TokenScan(t, line, parts, n - 1);
      var i := n - 1;
      if parts[i] == "votes" && i > 0 && ParseI64(parts[i - 1]).Some? then
        Assign(earlier, Route(line), ParseI64(parts[i - 1]).value)
      else earlier
  }

  /** The tally after one more line. */
  function LineScan(t: Tally, line: string): Tally {
    if IsSummaryLine(line) then
      var parts := Tokens(line);
      TokenScan(t, line, parts, |parts|)
    else t
  }

  /** The tally after all of `lines`, from (0, 0, 0). */
  function ScanLines(lines: seq<string>): Tally {
    if lines == [] then (0, 0, 0) else LineScan(ScanLines(lines[..|lines| - 1]), lines[|lines| - 1])
  }

  /** The answer of `extract_zkvm_results` on a whole output. */
  function ZkvmResults(output: string): Tally {
    ScanLines(Lines(output))
  }

  /**
   * `extract_zkvm_results`: in every line with "📊" and "votes", each token
   * "votes" after a token that parses as an `i64` sets the count of the
   * option the line's labels name; later lines overwrite earlier ones and
   * options never set stay 0.
   */
  method ExtractZkvmResults(output: string) returns (option1: i64, option2: i64, option3: i64)
    ensures (option1, option2, option3) == ZkvmResults(output)
  {
    option1, option2, option3 := 0, 0, 0;
    var lines := Lines(output);
    for k := 0 to |lines|
      invariant (option1, option2, option3) == ScanLines(lines[..k])
    {
      var line := lines[k];
      assert lines[..k + 1][..k] == lines[..k];
      if Contains(line, "📊") && Contains(line, "votes") {
        var parts := Tokens(line);
        for i := 0 to |parts|
          invariant (option1, option2, option3) == TokenScan(ScanLines(lines[..k]), line, parts, i)
        {
          if parts[i] == "votes" && i > 0 {
            var parsed := ParseI64(parts[i - 1]);
            if parsed.Some? {
              var count := parsed.value;
              if Contains(line, "Increase block size") || Contains(line, "Option1") {
                option1 := count;
              } else if Contains(line, "Layer 2 scaling") || Contains(line, "Option2") {
                option2 := count;
              } else if Contains(line, "current parameters") || Contains(line, "Option3") {
                option3 := count;
              }
            }
          }
        }
      }
    }
    assert lines[..|lines|] == lines;
  }

  /** A line that does not mention an option leaves that option's count alone. */
  lemma {:induction false} TokenScanKeeps(t: Tally, line: string, parts: seq<string>, n: nat, option: VoteOption)
    requires n <= |parts| && !Mentions(line, option)
    ensures CountOf(TokenScan(t, line, parts, n), option) == CountOf(t, option)
  {
    if n > 0 {
      RouteMentions(line);
      TokenScanKeeps(t, line, parts, n - 1, option);
    }
  }

  /** Scanning one more line is one more step of the scan. */
  lemma ScanLinesSnoc(lines: seq<string>, line: string)
    ensures ScanLines(lines + [line]) == LineScan(ScanLines(lines), line)
  {
    assert (lines + [line])[..|lines|] == lines;
  }

  /**
   * A line the scan leaves alone: it has no "📊", or it names no option, so
   * a count found in it would be stored nowhere.
   */
  predicate Inert(line: string) {
    !Contains(line, "📊") || Route(line) == None
  }

  /** The token loop over a line routed nowhere changes nothing. */
  lemma {:induction false} TokenScanUnrouted(t: Tally, line: string, parts: seq<string>, n: nat)
    requires n <= |parts| && Route(line) == None
    ensures TokenScan(t, line, parts, n) == t
  {
    if n > 0 {
      TokenScanUnrouted(t, line, parts, n - 1);
    }
  }

  /** An inert line leaves the tally as it is. */
  lemma LineScanInert(t: Tally, line: string)
    requires Inert(line)
    ensures LineScan(t, line) == t
  {
    if IsSummaryLine(line) {
      TokenScanUnrouted(t, line, Tokens(line), |Tokens(line)|);
    }
  }

  /** An option that no line mentions is never set: its count stays 0. */
  lemma {:induction false} UnlabelledOptionStaysZero(lines: seq<string>, option: VoteOption)
    requires forall j :: 0 <= j < |lines| ==> !Mentions(lines[j], option)
    ensures CountOf(ScanLines(lines), option) == 0
  {
    if lines != [] {
      var init, line := lines[..|lines| - 1], lines[|lines| - 1];
      assert lines == init + [line];
      UnlabelledOptionStaysZero(init, option);
      ScanLinesSnoc(init, line);
      if IsSummaryLine(line) {
        TokenScanKeeps(ScanLines(init), line, Tokens(line), |Tokens(line)|, option);
      }
    }
  }

  /** Inert lines, those without "📊" among them, change nothing. */
  lemma {:induction false} ScanSkipsTail(prefix: seq<string>, tail: seq<string>)
    requires forall j :: 0 <= j < |tail| ==> Inert(tail[j])
    ensures ScanLines(prefix + tail) == ScanLines(prefix)
  {
    if tail == [] {
      assert prefix + tail == prefix;
    } else {
      var init := tail[..|tail| - 1];
      assert prefix + tail == (prefix + init) + [tail[|tail| - 1]];
      ScanLinesSnoc(prefix + init, tail[|tail| - 1]);
      LineScanInert(ScanLines(prefix + init), tail[|tail| - 1]);
      ScanSkipsTail(prefix, init);
    }
  }

  /** An output with no "📊" line gives (0, 0, 0). */
  lemma NoSummaryLineGivesZeros(output: string)
    requires forall j :: 0 <= j < |Lines(output)| ==> !Contains(Lines(output)[j], "📊")
    ensures ZkvmResults(output) == (0, 0, 0)
  {
    ScanSkipsTail([], Lines(output));
    assert [] + Lines(output) == Lines(output);
  }

  // ---------------------------------------------------------------------
  // The host's summary

  /** `format!("📊 {}: {} votes", option.description(), count)`, as the host prints its summary. */
  function SummaryLine(option: VoteOption, count: u32): string {
    "📊 " + option.Description() + ": " + NatToString(count) + " votes"
  }

  /** The host's three summary lines. */
  function HostSummary(c1: u32, c2: u32, c3: u32): seq<string> {
    [SummaryLine(Option1, c1), SummaryLine(Option2, c2), SummaryLine(Option3, c3)]
  }

  /** The tokens of a description followed by a colon. */
  function DescriptionWords(option: VoteOption): seq<string> {
    match option
    case Option1 => ["Increase", "block", "size:"]
    case Option2 => ["Implement", "Layer", "2", "scaling:"]
    case Option3 => ["Maintain", "current", "parameters:"]
  }

  /** A description and its colon are its words joined by spaces. */
  lemma DescriptionWordsJoin(option: VoteOption)
    ensures var words := DescriptionWords(option);
      && words != [] && Unwords(words) == option.Description() + ":"
      && forall i :: 0 <= i < |words| ==> IsWord(words[i])
  {
    match option {
      case Option1 => DescriptionWords1();
      case Option2 => DescriptionWords2();
      case Option3 => DescriptionWords3();
    }
    DescriptionWordsAreWords();
  }

  lemma DescriptionWordsAreWords()
    ensures IsWord("Increase") && IsWord("block") && IsWord("size:")
    ensures IsWord("Implement") && IsWord("Layer") && IsWord("2") && IsWord("scaling:")
    ensures IsWord("Maintain") && IsWord("current") && IsWord("parameters:")
  {
  }

  lemma DescriptionWords1()
    ensures Unwords(["Increase", "block", "size:"]) == "Increase block size" + ":"
  {
    assert ["Increase", "block", "size:"][1..] == ["block", "size:"];
    assert ["block", "size:"][1..] == ["size:"];
  }

  lemma DescriptionWords2()
    ensures Unwords(["Implement", "Layer", "2", "scaling:"]) == "Implement Layer 2 scaling" + ":"
  {
    assert ["Implement", "Layer", "2", "scaling:"][1..] == ["Layer", "2", "scaling:"];
    assert ["Layer", "2", "scaling:"][1..] == ["2", "scaling:"];
    assert ["2", "scaling:"][1..] == ["scaling:"];
  }

  lemma DescriptionWords3()
    ensures Unwords(["Maintain", "current", "parameters:"]) == "Maintain current parameters" + ":"
  {
    assert ["Maintain", "current", "parameters:"][1..] == ["current", "parameters:"];
    assert ["current", "parameters:"][1..] == ["parameters:"];
  }

  /** The layout of a summary line, with its literal text cut at its spaces. */
  lemma SummaryShape(pic: string, d: string, n: string, votes: string, words: seq<string>)
    requires words != [] && Unwords(words) == d + ":"
    ensures (pic + " ") + d + (":" + " ") + n + (" " + votes) == Unwords([pic] + words + [n, votes])
  {
    UnwordsAppend([pic], words);
    UnwordsAppend([pic] + words, [n, votes]);
    assert [n, votes][1..] == [votes];
  }

  /** The literal text of a summary line, cut at its spaces. */
  lemma SummaryLiterals()
    ensures "📊 " == "📊" + " " && ": " == ":" + " " && " votes" == " " + "votes"
    ensures IsWord("📊") && IsWord("votes")
  {
  }

  /** The tokens of a host summary line: the pictogram, the description's words, the count and "votes". */
  lemma SummaryTokens(option: VoteOption, count: u32)
    ensures Tokens(SummaryLine(option, count)) == ["📊"] + DescriptionWords(option) + [NatToString(count), "votes"]
  {
    var n, words := NatToString(count), DescriptionWords(option);
    SummaryLiterals();
    DescriptionWordsJoin(option);
    SummaryShape("📊", option.Description(), n, "votes", words);
    FormattedIsWord(count);
    assert IntToString(count) == n;
    var all := ["📊"] + words + [n, "votes"];
    assert forall i :: 0 <= i < |all| ==> IsWord(all[i]);
    TokensOfUnwords(all);
  }

  /** A pattern inside a description is inside every summary line printed with it. */
  lemma ContainsInSummary(d: string, n: string, pat: string)
    requires Contains(d, pat)
    ensures Contains("📊 " + d + ": " + n + " votes", pat)
  {
    ContainsAfter("📊 ", d, pat);
    ContainsBefore("📊 " + d, ": ", pat);
    ContainsBefore("📊 " + d + ": ", n, pat);
    ContainsBefore("📊 " + d + ": " + n, " votes", pat);
  }

  /** A host summary line is one `extract_zkvm_results` looks into. */
  lemma SummaryLineSelected(option: VoteOption, count: u32)
    ensures IsSummaryLine(SummaryLine(option, count))
  {
    var d, n := option.Description(), NatToString(count);
    assert OccursAt("📊 ", "📊", 0);
    ContainsBefore("📊 ", d, "📊");
    ContainsBefore("📊 " + d, ": ", "📊");
    ContainsBefore("📊 " + d + ": ", n, "📊");
    ContainsBefore("📊 " + d + ": " + n, " votes", "📊");
    assert OccursAt(" votes", "votes", 1);
    ContainsAfter("📊 " + d + ": " + n, " votes", "votes");
  }

  /**
   * A pattern holding a character that is neither a digit nor in the
   * description nor in the format's own text is not in a summary line.
   */
  lemma AbsentFromSummary(d: string, n: string, pat: string, c: char)
    requires AllDigits(n) && !IsDigit(c) && c !in "📊: votes" && c in pat && c !in d
    ensures !Contains("📊 " + d + ": " + n + " votes", pat)
  {
    var line := "📊 " + d + ": " + n + " votes";
    assert c !in n;
    assert c !in line;
    MissingChar(line, pat, c);
  }

  /** A host summary line is routed to its own option. */
  lemma SummaryLineRoute(option: VoteOption, count: u32)
    ensures Route(SummaryLine(option, count)) == Some(option)
  {
    var d, n := option.Description(), NatToString(count);
    match option {
      case Option1 =>
        ContainsSelf(d);
        ContainsInSummary(d, n, "Increase block size");
      case Option2 =>
        SecondSummaryRoute(d, n);
      case Option3 =>
        ThirdSummaryRoute(d, n);
    }
  }

  lemma SecondSummaryRoute(d: string, n: string)
    requires d == "Implement Layer 2 scaling" && AllDigits(n)
    ensures Route("📊 " + d + ": " + n + " votes") == Some(Option2)
  {
    AbsentFromSummary(d, n, "Increase block size", 'z');
    AbsentFromSummary(d, n, "Option1", 'O');
    assert d == "Implement " + "Layer 2 scaling";
    ContainsSelf("Layer 2 scaling");
    ContainsAfter("Implement ", "Layer 2 scaling", "Layer 2 scaling");
    ContainsInSummary(d, n, "Layer 2 scaling");
  }

  lemma ThirdSummaryRoute(d: string, n: string)
    requires d == "Maintain current parameters" && AllDigits(n)
    ensures Route("📊 " + d + ": " + n + " votes") == Some(Option3)
  {
    ThirdNotEarlier(d, n);
    assert d == "Maintain " + "current parameters";
    ContainsSelf("current parameters");
    ContainsAfter("Maintain ", "current parameters", "current parameters");
    ContainsInSummary(d, n, "current parameters");
  }

  lemma ThirdNotEarlier(d: string, n: string)
    requires d == "Maintain current parameters" && AllDigits(n)
    ensures !Mentions("📊 " + d + ": " + n + " votes", Option1)
    ensures !Mentions("📊 " + d + ": " + n + " votes", Option2)
  {
    AbsentFromSummary(d, n, "Increase block size", 'z');
    AbsentFromSummary(d, n, "Option1", 'O');
    AbsentFromSummary(d, n, "Layer 2 scaling", 'L');
    AbsentFromSummary(d, n, "Option2", 'O');
  }

  /** A token loop that meets "votes" only as its last token, after a number, sets the routed count to that number. */
  lemma {:induction false} TokenScanLastVotes(t: Tally, line: string, parts: seq<string>, n: nat, count: i64)
    requires 2 <= |parts| && n <= |parts|
    requires forall i :: 0 <= i < |parts| - 1 ==> parts[i] != "votes"
    requires parts[|parts| - 1] == "votes" && ParseI64(parts[|parts| - 2]) == Some(count)
    ensures TokenScan(t, line, parts, n) == if n == |parts| then Assign(t, Route(line), count) else t
  {
    if n > 0 {
      TokenScanLastVotes(t, line, parts, n - 1, count);
    }
  }

  /** A host summary line sets the count of its own option to the printed number and leaves the other two alone. */
  lemma SummaryLineScan(t: Tally, option: VoteOption, count: u32)
    ensures LineScan(t, SummaryLine(option, count)) == Assign(t, Some(option), count)
  {
    var line, n := SummaryLine(option, count), NatToString(count);
    var parts := ["📊"] + DescriptionWords(option) + [n, "votes"];
    SummaryTokens(option, count);
    SummaryLineSelected(option, count);
    VotesOnlyLast(option, n);
    assert IntToString(count) == n;
    ParseFormatted(count);
    SummaryLineRoute(option, count);
    TokenScanLastVotes(t, line, parts, |parts|, count);
  }

  /** In a summary line's tokens, "votes" is only the last. */
  lemma VotesOnlyLast(option: VoteOption, n: string)
    requires n != [] && AllDigits(n)
    ensures var parts := ["📊"] + DescriptionWords(option) + [n, "votes"];
      forall i :: 0 <= i < |parts| - 1 ==> parts[i] != "votes"
  {
    var parts := ["📊"] + DescriptionWords(option) + [n, "votes"];
    assert n[0] != 'v';
    forall i | 0 <= i < |parts| - 1
      ensures parts[i] != "votes"
    {
      assert parts[i][0] != 'v';
    }
  }

  lemma SummaryLinePlain(option: VoteOption, count: u32)
    ensures PlainLine(SummaryLine(option, count))
  {
    var d := option.Description();
    assert '\n' !in d;
    PlainSummary(d, NatToString(count));
  }

  lemma PlainSummary(d: string, n: string)
    requires '\n' !in d && AllDigits(n)
    ensures PlainLine("📊 " + d + ": " + n + " votes")
  {
    assert '\n' !in n;
  }

  /** One host summary line after some lines sets the count of its option. */
  lemma SummaryScanStep(lines: seq<string>, line: string, option: VoteOption, count: u32)
    requires line == SummaryLine(option, count)
    ensures ScanLines(lines + [line]) == Assign(ScanLines(lines), Some(option), count)
  {
    ScanLinesSnoc(lines, line);
    SummaryLineScan(ScanLines(lines), option, count);
  }

  lemma SnocThree(lines: seq<string>, a: string, b: string, c: string)
    ensures lines + [a, b, c] == lines + [a] + [b] + [c]
  {
  }

  /** After inert lines, the three summary lines give the three counts. */
  lemma SummaryScan(before: seq<string>, c1: u32, c2: u32, c3: u32)
    requires forall j :: 0 <= j < |before| ==> Inert(before[j])
    ensures ScanLines(before + HostSummary(c1, c2, c3)) == (c1, c2, c3)
  {
    var s1, s2, s3 := SummaryLine(Option1, c1), SummaryLine(Option2, c2), SummaryLine(Option3, c3);
    ScanSkipsTail([], before);
    assert [] + before == before;
    var b1 := before + [s1];
    var b2 := b1 + [s2];
    SnocThree(before, s1, s2, s3);
    SummaryScanStep(before, s1, Option1, c1);
    SummaryScanStep(b1, s2, Option2, c2);
    SummaryScanStep(b2, s3, Option3, c3);
  }

  /**
   * The host's summary of a run, printed line by line amid inert lines, is
   * read back as the three counts the journal committed.
   */
  lemma HostSummaryRoundTrip(before: seq<string>, after: seq<string>, c1: u32, c2: u32, c3: u32)
    requires forall j :: 0 <= j < |before| ==> PlainLine(before[j]) && Inert(before[j])
    requires forall j :: 0 <= j < |after| ==> PlainLine(after[j]) && Inert(after[j])
    ensures ZkvmResults(JoinLines(before + HostSummary(c1, c2, c3) + after)) == (c1, c2, c3)
  {
    var summary := HostSummary(c1, c2, c3);
    var lines := before + summary + after;
    SummaryLinePlain(Option1, c1);
    SummaryLinePlain(Option2, c2);
    SummaryLinePlain(Option3, c3);
    PlainAround(before, summary[0], summary[1], summary[2], after);
    LinesOfJoinLines(lines);
    ScanSkipsTail(before + summary, after);
    SummaryScan(before, c1, c2, c3);
  }

  // ---------------------------------------------------------------------
  // The host's other "📊" line

  /** `format!("📊 [Host] Processing {} encrypted votes:", n)`, printed before the votes are sent to the guest. */
  function ProcessingLine(n: nat): string {
    "📊 [Host] Processing " + NatToString(n) + " encrypted votes:"
  }

  /**
   * A pattern holding a character that is neither a digit nor in the
   * format's own text is not in the processing line.
   */
  lemma AbsentFromProcessing(n: string, pat: string, c: char)
    requires AllDigits(n) && !IsDigit(c) && c !in "📊 [Host] Processing " && c !in " encrypted votes:" && c in pat
    ensures !Contains("📊 [Host] Processing " + n + " encrypted votes:", pat)
  {
    var line := "📊 [Host] Processing " + n + " encrypted votes:";
    assert c !in n;
    assert c !in line;
    MissingChar(line, pat, c);
  }

  /** The processing line names no option, whatever the number in it. */
  lemma ProcessingRoutesNowhere(n: string)
    requires AllDigits(n)
    ensures Route("📊 [Host] Processing " + n + " encrypted votes:") == None
  {
    ProcessingNotOption1(n);
    ProcessingNotOption2(n);
    ProcessingNotOption3(n);
  }

  lemma ProcessingNotOption1(n: string)
    requires AllDigits(n)
    ensures !Mentions("📊 [Host] Processing " + n + " encrypted votes:", Option1)
  {
    ProcessingLacks(n, Option1, 'I', 'O');
  }

  lemma ProcessingNotOption2(n: string)
    requires AllDigits(n)
    ensures !Mentions("📊 [Host] Processing " + n + " encrypted votes:", Option2)
  {
    ProcessingLacks(n, Option2, 'L', 'O');
  }

  lemma ProcessingNotOption3(n: string)
    requires AllDigits(n)
    ensures !Mentions("📊 [Host] Processing " + n + " encrypted votes:", Option3)
  {
    ProcessingLacks(n, Option3, 'u', 'O');
  }

  /** The processing line does not mention `option` when each of its labels has a character the line lacks. */
  lemma ProcessingLacks(n: string, option: VoteOption, c: char, d: char)
    requires AllDigits(n) && !IsDigit(c) && !IsDigit(d)
    requires c !in "📊 [Host] Processing " && c !in " encrypted votes:" && c in Labels(option)[0]
    requires d !in "📊 [Host] Processing " && d !in " encrypted votes:" && d in Labels(option)[1]
    ensures !Mentions("📊 [Host] Processing " + n + " encrypted votes:", option)
  {
    AbsentFromProcessing(n, Labels(option)[0], c);
    AbsentFromProcessing(n, Labels(option)[1], d);
  }

  lemma PlainProcessing(n: string)
    requires AllDigits(n)
    ensures PlainLine("📊 [Host] Processing " + n + " encrypted votes:")
  {
    assert '\n' !in n;
  }

  /**
   * The processing line has "📊" and "votes" in it, but names no option,
   * so the parser stores nothing from it; and it prints as a plain line.
   */
  lemma ProcessingLineInert(n: nat)
    ensures Inert(ProcessingLine(n)) && PlainLine(ProcessingLine(n))
  {
    ProcessingRoutesNowhere(NatToString(n));
    PlainProcessing(NatToString(n));
  }

  /**
   * The host's standard output: lines before the processing line, the
   * processing line for `n` votes, more lines, the summary and the rest,
   * all other lines inert, is read back as the three committed counts.
   */
  lemma HostOutputRoundTrip(start: seq<string>, middle: seq<string>, after: seq<string>, n: nat, c1: u32, c2: u32, c3: u32)
    requires forall j :: 0 <= j < |start| ==> PlainLine(start[j]) && Inert(start[j])
    requires forall j :: 0 <= j < |middle| ==> PlainLine(middle[j]) && Inert(middle[j])
    requires forall j :: 0 <= j < |after| ==> PlainLine(after[j]) && Inert(after[j])
    ensures ZkvmResults(JoinLines(start + [ProcessingLine(n)] + middle + HostSummary(c1, c2, c3) + after)) == (c1, c2, c3)
  {
    var before := start + [ProcessingLine(n)] + middle;
    ProcessingLineInert(n);
    assert forall j :: 0 <= j < |before| ==> PlainLine(before[j]) && Inert(before[j]) by {
      forall j | 0 <= j < |before|
        ensures PlainLine(before[j]) && Inert(before[j])
      {
        if j < |start| {
          assert before[j] == start[j];
        } else if j > |start| {
          assert before[j] == middle[j - |start| - 1];
        }
      }
    }
    HostSummaryRoundTrip(before, after, c1, c2, c3);
  }
}
