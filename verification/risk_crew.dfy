/** The result classification of the risk-assessment crew (`RiskAssessmentCrew.run`) and its
    error wrapper (`run_risk_assessment_for_event`). The crew itself (agents, LLM calls) is a
    parameter: what its `kickoff` returned, or that it raised. */
module RiskCrew {
  import opened Common

  /** What `crew.kickoff()` produced: a string, some other object (with its `str()` text), or an
      exception (with its message). */
  datatype Kickoff = Text(text: string) | NonText(repr: string) | KickoffRaised(err: string)

  /** Whether constructing the crew succeeded; construction may raise. */
  datatype Construction = Constructed | ConstructionRaised(err: string)

  /** The `{status, message}` dict every path returns. */
  datatype Assessment = Assessment(status: string, message: string)

  const SuccessIndicators: seq<string> := ["success", "updated", "完成", "成功"]

  predicate IsAsciiUpper(c: char) {
    'A' <= c <= 'Z'
  }

  /** `str.lower` restricted to ASCII; every other character is left as it is. */
  function LowerChar(c: char): (d: char)
    ensures !IsAsciiUpper(d)
    ensures !IsAsciiUpper(c) ==> d == c
    ensures IsAsciiUpper(c) ==> d as int == c as int + 32
  {
    if IsAsciiUpper(c) then (c as int + 32) as char else c
  }

  function Lower(s: string): (r: string)
    ensures |r| == |s|
    ensures forall i :: 0 <= i < |s| ==> r[i] == LowerChar(s[i])
  {
    seq(|s|, i requires 0 <= i < |s| => LowerChar(s[i]))
  }

  /** Lower-casing twice is lower-casing once, and a lower-cased string has no ASCII capital. */
  lemma LowerIdempotent(s: string)
    ensures Lower(Lower(s)) == Lower(s)
    ensures forall i :: 0 <= i < |s| ==> !IsAsciiUpper(Lower(s)[i])
  {
  }

  /** Python's `needle in haystack` for strings, as a definition: some window of the haystack
      equals the needle. */
  ghost predicate OccursIn(needle: string, haystack: string) {
    exists k :: MatchesAt(haystack, needle, k)
  }

  /** The window of `haystack` starting at `k` equals `needle`. */
  predicate MatchesAt(haystack: string, needle: string, k: int) {
    0 <= k <= |haystack| - |needle| && haystack[k..k + |needle|] == needle
  }

  /** Substring search by trying every start position in turn. */
  function Contains(haystack: string, needle: string): (b: bool)
    ensures b <==> OccursIn(needle, haystack)
    decreases |haystack|
  {
    if StartsWith(haystack, needle) then
      assert MatchesAt(haystack, needle, 0);
      true
    else if |haystack| == 0 then
      false
    else
      var b := Contains(haystack[1..], needle);
      assert b ==> OccursIn(needle, haystack) by {
        if b {
          var k :| MatchesAt(haystack[1..], needle, k);
          assert haystack[k + 1..k + 1 + |needle|] == haystack[1..][k..k + |needle|];
          assert MatchesAt(haystack, needle, k + 1);
        }
      }
      assert OccursIn(needle, haystack) ==> b by {
        if OccursIn(needle, haystack) {
          var k :| MatchesAt(haystack, needle, k);
          assert k != 0;
          assert haystack[1..][k - 1..k - 1 + |needle|] == haystack[k..k + |needle|];
          assert MatchesAt(haystack[1..], needle, k - 1);
        }
      }
      b
  }

  /** The crew's text reports success: its lower-cased form contains some indicator. */
  predicate LooksSuccessful(text: string) {
    exists i :: 0 <= i < |SuccessIndicators| && Contains(Lower(text), SuccessIndicators[i])
  }

  /** The result classification of `run`, including its exception handler. */
  function Classify(k: Kickoff): (a: Assessment)
    ensures a.status == "success" || a.status == "error"
    ensures a.status == "success" <==> k.Text? && LooksSuccessful(k.text)
    ensures a.status == "success" ==> a.message == k.text
    ensures k.KickoffRaised? ==> a == Assessment("error", "Crew 执行失败: " + k.err)
  {
    match k
    case Text(s) =>
      if LooksSuccessful(s) then Assessment("success", s)
      else Assessment("error", "更新失败或确认信息不明确: " + s)
    case NonText(repr) => Assessment("error", "更新失败或确认信息不明确: " + repr)
    case KickoffRaised(err) => Assessment("error", "Crew 执行失败: " + err)
  }

  /** `run_risk_assessment_for_event`: build the crew, then run it; a construction failure is
      caught and reported as an error. */
  function RunRiskAssessmentForEvent(c: Construction, k: Kickoff): (a: Assessment)
    ensures a.status == "success" || a.status == "error"
    ensures c.ConstructionRaised? ==> a == Assessment("error", "风险评估失败: " + c.err)
    ensures c.Constructed? ==> (a.status == "success" <==> k.Text? && LooksSuccessful(k.text))
  {
    match c
    case Constructed => Classify(k)
    case ConstructionRaised(err) => Assessment("error", "风险评估失败: " + err)
  }

  /** Lower-casing works character by character, so it commutes with slicing. */
  lemma LowerSlice(s: string, lo: nat, hi: nat)
    requires lo <= hi <= |s|
    ensures Lower(s)[lo..hi] == Lower(s[lo..hi])
  {
    var a, b := Lower(s), Lower(s[lo..hi]);
    forall j | 0 <= j < hi - lo ensures a[lo + j] == b[j] {
      assert b[j] == LowerChar(s[lo..hi][j]);
    }
    assert a[lo..hi] == b;
  }

  /** A string without ASCII capitals is its own lower-cased form. */
  lemma LowerOfLowercase(s: string)
    requires forall i :: 0 <= i < |s| ==> !IsAsciiUpper(s[i])
    ensures Lower(s) == s
  {
  }

  /** The indicators are already lower-case. */
  lemma IndicatorIsLowercase(i: nat)
    requires i < |SuccessIndicators|
    ensures Lower(SuccessIndicators[i]) == SuccessIndicators[i]
  {
    var ind := SuccessIndicators[i];
    forall j | 0 <= j < |ind| ensures !IsAsciiUpper(ind[j]) {
      assert ind[j] in "success" + "updated" + "完成" + "成功";
    }
    LowerOfLowercase(ind);
  }

  /** A text whose lower-cased form contains an indicator is a success. */
  lemma FoundIndicatorIsSuccess(text: string, i: nat, k: nat)
    requires i < |SuccessIndicators| && MatchesAt(Lower(text), SuccessIndicators[i], k)
    ensures Classify(Text(text)).status == "success"
  {
    assert Contains(Lower(text), SuccessIndicators[i]);
  }

  /** Any text in which an indicator occurs is a success, whatever surrounds it: matching is a
      plain substring search. */
  lemma {:induction false} ContainingIndicatorIsSuccess(before: string, after: string, i: nat)
    requires i < |SuccessIndicators|
    ensures Classify(Text(before + SuccessIndicators[i] + after)).status == "success"
  {
    var ind := SuccessIndicators[i];
    var s := before + ind + after;
    assert s[|before|..|before| + |ind|] == ind;
    LowerSlice(s, |before|, |before| + |ind|);
    IndicatorIsLowercase(i);
    FoundIndicatorIsSuccess(s, i, |before|);
  }

  /** So a longer word such as "unsuccessful" reads as a success. */
  lemma UnsuccessfulCountsAsSuccess()
    ensures Classify(Text("unsuccessful")).status == "success"
  {
    ContainingIndicatorIsSuccess("un", "ful", 0);
    assert "un" + SuccessIndicators[0] + "ful" == "unsuccessful";
  }

  /** The indicators are matched case-insensitively (for ASCII letters): any word that
      lower-cases to an indicator, such as "UPDATED", makes the text a success. */
  lemma {:induction false} CaseInsensitiveMatch(before: string, w: string, after: string, i: nat)
    requires i < |SuccessIndicators| && Lower(w) == SuccessIndicators[i]
    ensures Classify(Text(before + w + after)).status == "success"
  {
    var s := before + w + after;
    assert s[|before|..|before| + |w|] == w;
    LowerSlice(s, |before|, |before| + |w|);
    FoundIndicatorIsSuccess(s, i, |before|);
  }

  /** A needle whose first character does not occur in the haystack is not found. */
  lemma FirstCharAbsent(haystack: string, needle: string)
    requires |needle| > 0 && needle[0] !in haystack
    ensures !Contains(haystack, needle)
  {
  }

  /** A text whose lower-cased form contains none of the indicators is an error, reported
      with the text itself. */
  lemma NoIndicatorIsError(text: string)
    requires forall i :: 0 <= i < |SuccessIndicators| ==> !Contains(Lower(text), SuccessIndicators[i])
    ensures Classify(Text(text)) == Assessment("error", "更新失败或确认信息不明确: " + text)
  {
  }

  /** So a plain failure report is an error: "failed" mentions no indicator. */
  lemma {:induction false} FailedIsAnError()
    ensures Classify(Text("failed")).status == "error"
  {
    LowerOfLowercase("failed");
    forall i | 0 <= i < |SuccessIndicators|
      ensures !Contains("failed", SuccessIndicators[i])
    {
      FirstCharAbsent("failed", SuccessIndicators[i]);
    }
    NoIndicatorIsError("failed");
  }
}
