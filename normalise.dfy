/** Normalising one crawler record and building the text that is embedded for it
    (`process_entry` of the first preparation script). */
module Normalise {
  import opened Wrappers
  import opened PyStr
  import TestTypes
  import Duration

  /** A crawler record: every key is present; all values are strings except the list of test-type codes. */
  datatype RawEntry = RawEntry(
    title: string,
    url: string,
    description: string,
    jobLevels: string,
    languages: string,
    durationMinutes: string,
    testTypes: seq<string>,
    remoteTesting: string,
    adaptiveSupported: string)

  /** The normalised record ("Assessment_name", "URL", "Description", "Job_levels",
      "Languages", "Test_types", "Duration_minutes", "Remote_testing_support",
      "Adaptive/IRT Support", "embedding_text"). */
  datatype Processed = Processed(
    assessmentName: string,
    url: string,
    description: string,
    jobLevels: string,
    languages: string,
    testTypes: seq<string>,
    durationMinutes: Option<nat>,
    remoteTestingSupport: string,
    adaptiveSupport: string,
    embeddingText: string)

  datatype Error = KeyError(key: string)

  /** `[TEST_TYPE_LABELS[t] for t in codes]`: every code mapped in order, or
      KeyError naming the first code missing from the table. */
  function LabelAll(codes: seq<string>): (r: Result<seq<string>, Error>)
    ensures r.Success? <==> forall i :: 0 <= i < |codes| ==> codes[i] in TestTypes.Labels
    ensures r.Success? ==> |r.value| == |codes|
    ensures r.Success? ==> forall i :: 0 <= i < |codes| ==> r.value[i] == TestTypes.Labels[codes[i]]
    ensures r.Failure? ==> exists i :: 0 <= i < |codes| && r.error == KeyError(codes[i])
                                    && codes[i] !in TestTypes.Labels
                                    && forall j :: 0 <= j < i ==> codes[j] in TestTypes.Labels
  {
    if codes == [] then Success([])
    else
      match TestTypes.Label(codes[0])
      case None => Failure(KeyError(codes[0]))
      case Some(first) =>
        match LabelAll(codes[1..])
        case Failure(e) =>
          assert forall i :: 1 <= i < |codes| ==> codes[i] == codes[1..][i - 1];
          Failure(e)
        case Success(rest) => Success([first] + rest)
  }

  function YesNo(flag: string): string {
    if flag != "" then "Yes" else "No"
  }

  function SupportedOrNot(flag: string): string {
    if flag != "" then "Supported" else "Not supported"
  }

  /** The remote-testing sentence: the stored flag is tested for being non-empty. */
  function RemotePart(p: Processed): string {
    "Remote testing available: " + YesNo(p.remoteTestingSupport)
  }

  /** The adaptive-testing sentence: the stored flag is tested for being non-empty. */
  function AdaptivePart(p: Processed): string {
    "Adaptive testing: " + SupportedOrNot(p.adaptiveSupport)
  }

  function JobLevelsPart(p: Processed): seq<string> {
    if p.jobLevels != "" then ["Applicable job levels: " + p.jobLevels] else []
  }

  function LanguagesPart(p: Processed): seq<string> {
    if p.languages != "" then ["Available languages: " + p.languages] else []
  }

  /** Python truthiness of `Duration_minutes`: both None and 0 are false. */
  function DurationPart(p: Processed): seq<string> {
    match p.durationMinutes
    case Some(n) => if n != 0 then ["Test duration: " + NatToString(n) + " minutes"] else []
    case None => []
  }

  function TestTypesPart(p: Processed): seq<string> {
    if p.testTypes != [] then ["Measures: " + Join(", ", p.testTypes)] else []
  }

  /** All sentences of the embedding text: the description first; then job levels,
      languages, duration and test types, each only when present; the two flags last. */
  function TextParts(p: Processed): seq<string> {
    [p.description] + JobLevelsPart(p) + LanguagesPart(p) + DurationPart(p) + TestTypesPart(p)
    + [RemotePart(p)] + [AdaptivePart(p)]
  }

  /** `". ".join(text_parts)`. */
  function EmbeddingText(p: Processed): string {
    Join(". ", TextParts(p))
  }

  /** The second half of `process_entry`: the sentences appended to `text_parts`
      one by one, then joined with ". ". */
  method JoinTextParts(processed: Processed) returns (text: string)
    ensures text == EmbeddingText(processed)
  {
    var textParts: seq<string> := [];
    textParts := textParts + [processed.description];
    if processed.jobLevels != "" {
      textParts := textParts + ["Applicable job levels: " + processed.jobLevels];
    }
    assert textParts == [processed.description] + JobLevelsPart(processed);
    if processed.languages != "" {
      textParts := textParts + ["Available languages: " + processed.languages];
    }
    assert textParts == [processed.description] + JobLevelsPart(processed) + LanguagesPart(processed);
    if processed.durationMinutes.Some? && processed.durationMinutes.value != 0 {
      textParts := textParts + ["Test duration: " + NatToString(processed.durationMinutes.value) + " minutes"];
    }
    assert textParts == [processed.description] + JobLevelsPart(processed) + LanguagesPart(processed)
                        + DurationPart(processed);
    if processed.testTypes != [] {
      textParts := textParts + ["Measures: " + Join(", ", processed.testTypes)];
    }
    assert textParts == [processed.description] + JobLevelsPart(processed) + LanguagesPart(processed)
                        + DurationPart(processed) + TestTypesPart(processed);
    textParts := textParts + ["Remote testing available: " + (if processed.remoteTestingSupport != "" then "Yes" else "No")];
    textParts := textParts + ["Adaptive testing: " + (if processed.adaptiveSupport != "" then "Supported" else "Not supported")];
    assert textParts == TextParts(processed);
    text := Join(". ", textParts);
  }

  /** `process_entry(entry)`: the normalised fields, then `embedding_text` filled in
      from the sentences appended one by one; KeyError for an unknown test-type code. */
  method ProcessEntry(entry: RawEntry) returns (r: Result<Processed, Error>)
    ensures r.Failure? <==> exists i :: 0 <= i < |entry.testTypes| && entry.testTypes[i] !in TestTypes.Labels
    ensures r.Failure? ==> r == Failure(LabelAll(entry.testTypes).error)
    ensures r.Success? ==>
      var p := r.value;
      && p.assessmentName == Strip(entry.title)
      && p.url == Strip(entry.url)
      && p.description == Strip(entry.description)
      && p.jobLevels == RStrip(Strip(entry.jobLevels), ',')
      && p.languages == RStrip(Strip(entry.languages), ',')
      && |p.testTypes| == |entry.testTypes|
      && (forall i :: 0 <= i < |entry.testTypes| ==> p.testTypes[i] == TestTypes.Labels[entry.testTypes[i]])
      && p.durationMinutes == Duration.ParseDuration(entry.durationMinutes)
      && p.remoteTestingSupport == Lower(entry.remoteTesting)
      && p.adaptiveSupport == Lower(entry.adaptiveSupported)
      && p.embeddingText == EmbeddingText(p)
  {
    var labels := LabelAll(entry.testTypes);
    if labels.Failure? {
      return Failure(labels.error);
    }
    var processed := Processed(
      Strip(entry.title),
      Strip(entry.url),
      Strip(entry.description),
      RStrip(Strip(entry.jobLevels), ','),
      RStrip(Strip(entry.languages), ','),
      labels.value,
      Duration.ParseDuration(entry.durationMinutes),
      Lower(entry.remoteTesting),
      Lower(entry.adaptiveSupported),
      "");

    var text := JoinTextParts(processed);
    processed := processed.(embeddingText := text);
    r := Success(processed);
  }

  /** The embedding text opens with the description and closes with the
      remote-testing and adaptive-testing sentences, in that order. */
  lemma EmbeddingTextLayout(p: Processed)
    ensures EmbeddingText(p) == Join(". ", [p.description] + JobLevelsPart(p) + LanguagesPart(p) + DurationPart(p)
                                           + TestTypesPart(p)) + ". " + RemotePart(p) + ". " + AdaptivePart(p)
    ensures p.description + ". " <= EmbeddingText(p)
  {
    var head := [p.description] + JobLevelsPart(p) + LanguagesPart(p) + DurationPart(p) + TestTypesPart(p);
    JoinAppend(". ", head, RemotePart(p));
    JoinAppend(". ", head + [RemotePart(p)], AdaptivePart(p));
    assert TextParts(p) == head + [RemotePart(p)] + [AdaptivePart(p)];
    assert TextParts(p) == [p.description] + TextParts(p)[1..];
    assert |TextParts(p)| >= 3;
    assert EmbeddingText(p) == p.description + ". " + Join(". ", TextParts(p)[1..]);
  }

  /** Every conditional sentence is dropped when its value is empty (a zero or
      missing duration alike), leaving exactly description, remote and adaptive. */
  lemma BareRecordHasThreeSentences(p: Processed)
    requires p.jobLevels == "" && p.languages == "" && p.testTypes == []
    requires p.durationMinutes == None || p.durationMinutes == Some(0)
    ensures EmbeddingText(p) == p.description + ". " + RemotePart(p) + ". " + AdaptivePart(p)
  {
    EmbeddingTextLayout(p);
    assert [p.description] + JobLevelsPart(p) + LanguagesPart(p) + DurationPart(p) + TestTypesPart(p) == [p.description];
  }

  /** The number of sentences is three plus one per present conditional value. */
  lemma SentenceCount(p: Processed)
    ensures |TextParts(p)| == 3 + (if p.jobLevels != "" then 1 else 0) + (if p.languages != "" then 1 else 0)
                                + (if p.durationMinutes.Some? && p.durationMinutes.value != 0 then 1 else 0)
                                + (if p.testTypes != [] then 1 else 0)
  {
  }

  /** The flags' wording depends only on whether the stored lower-cased string is
      empty: a crawler value of "No" still yields "Yes" and "Supported". */
  lemma FlagWordingIgnoresAnswer(entry: RawEntry, p: Processed)
    requires p.remoteTestingSupport == Lower(entry.remoteTesting)
    requires p.adaptiveSupport == Lower(entry.adaptiveSupported)
    ensures RemotePart(p) == "Remote testing available: " + (if entry.remoteTesting != "" then "Yes" else "No")
    ensures AdaptivePart(p) == "Adaptive testing: " + (if entry.adaptiveSupported != "" then "Supported" else "Not supported")
    ensures entry.remoteTesting == "No" ==> RemotePart(p) == "Remote testing available: Yes"
    ensures entry.adaptiveSupported == "No" ==> AdaptivePart(p) == "Adaptive testing: Supported"
  {
    assert |Lower(entry.remoteTesting)| == |entry.remoteTesting|;
    assert |Lower(entry.adaptiveSupported)| == |entry.adaptiveSupported|;
  }

  /** The remote-testing sentence as evidently intended: "Yes" only for the stored
      answer "yes". */
  function IntendedRemotePart(p: Processed): string {
    "Remote testing available: " + (if p.remoteTestingSupport == "yes" then "Yes" else "No")
  }

  /** The adaptive-testing sentence as evidently intended: "Supported" only for the
      stored answer "yes". */
  function IntendedAdaptivePart(p: Processed): string {
    "Adaptive testing: " + (if p.adaptiveSupport == "yes" then "Supported" else "Not supported")
  }

  /** The embedding text with the two flag sentences worded as intended. */
  function IntendedEmbeddingText(p: Processed): string {
    Join(". ", [p.description] + JobLevelsPart(p) + LanguagesPart(p) + DurationPart(p) + TestTypesPart(p)
               + [IntendedRemotePart(p)] + [IntendedAdaptivePart(p)])
  }

  /** The crawler's answers read as they mean: remote testing "Yes" or "No", and
      adaptive support "Yes", "No" or "No Information". */
  lemma CrawlerAnswersRead(entry: RawEntry, p: Processed)
    requires p.remoteTestingSupport == Lower(entry.remoteTesting)
    requires p.adaptiveSupport == Lower(entry.adaptiveSupported)
    ensures entry.remoteTesting == "Yes" ==> IntendedRemotePart(p) == "Remote testing available: Yes"
    ensures entry.remoteTesting == "No" ==> IntendedRemotePart(p) == "Remote testing available: No"
    ensures entry.adaptiveSupported == "Yes" ==> IntendedAdaptivePart(p) == "Adaptive testing: Supported"
    ensures entry.adaptiveSupported == "No" ==> IntendedAdaptivePart(p) == "Adaptive testing: Not supported"
    ensures entry.adaptiveSupported == "No Information" ==> IntendedAdaptivePart(p) == "Adaptive testing: Not supported"
  {
    LowerYes();
    assert |Lower(entry.remoteTesting)| == |entry.remoteTesting|;
    assert |Lower(entry.adaptiveSupported)| == |entry.adaptiveSupported|;
  }

  lemma LowerYes()
    ensures Lower("Yes") == "yes"
  {
  }

  /** The two wordings of a flag sentence agree exactly when the stored answer is
      empty or "yes". */
  lemma FlagWordingsAgree(p: Processed)
    ensures RemotePart(p) == "Remote testing available: Yes" || RemotePart(p) == "Remote testing available: No"
    ensures IntendedRemotePart(p) == "Remote testing available: Yes" || IntendedRemotePart(p) == "Remote testing available: No"
    ensures AdaptivePart(p) == "Adaptive testing: Supported" || AdaptivePart(p) == "Adaptive testing: Not supported"
    ensures IntendedAdaptivePart(p) == "Adaptive testing: Supported" || IntendedAdaptivePart(p) == "Adaptive testing: Not supported"
    ensures RemotePart(p) == IntendedRemotePart(p) <==> p.remoteTestingSupport == "" || p.remoteTestingSupport == "yes"
    ensures AdaptivePart(p) == IntendedAdaptivePart(p) <==> p.adaptiveSupport == "" || p.adaptiveSupport == "yes"
  {
    var r, r' := RemotePart(p), IntendedRemotePart(p);
    if r == r' {
      assert r[26] == r'[26];
    }
    var a, a' := AdaptivePart(p), IntendedAdaptivePart(p);
    if a == a' {
      assert a[18] == a'[18];
    }
  }

  /** The as-written embedding text differs from the intended one exactly when a
      stored flag answer is neither empty nor "yes" (as the crawler's "no" and
      "no information" are). */
  lemma IntendedTextDiffers(p: Processed)
    ensures IntendedEmbeddingText(p) != EmbeddingText(p) <==>
              (p.remoteTestingSupport != "" && p.remoteTestingSupport != "yes")
              || (p.adaptiveSupport != "" && p.adaptiveSupport != "yes")
  {
    var x := Join(". ", [p.description] + JobLevelsPart(p) + LanguagesPart(p) + DurationPart(p) + TestTypesPart(p)) + ". ";
    var r, a, r', a' := RemotePart(p), AdaptivePart(p), IntendedRemotePart(p), IntendedAdaptivePart(p);
    EmbeddingTextLayout(p);
    IntendedTextLayout(p);
    assert EmbeddingText(p) == x + r + ". " + a;
    assert IntendedEmbeddingText(p) == x + r' + ". " + a';
    FlagWordingsAgree(p);
    TailsDiffer(x, r, a, r', a');
  }

  /** The intended text keeps the layout: the same sentences, then the two flags. */
  lemma IntendedTextLayout(p: Processed)
    ensures IntendedEmbeddingText(p) == Join(". ", [p.description] + JobLevelsPart(p) + LanguagesPart(p) + DurationPart(p)
                                                   + TestTypesPart(p)) + ". " + IntendedRemotePart(p) + ". " + IntendedAdaptivePart(p)
  {
    var head := [p.description] + JobLevelsPart(p) + LanguagesPart(p) + DurationPart(p) + TestTypesPart(p);
    JoinAppend(". ", head, IntendedRemotePart(p));
    JoinAppend(". ", head + [IntendedRemotePart(p)], IntendedAdaptivePart(p));
  }

  /** Two texts with a common start and flag sentences of the shapes above are equal
      exactly when both sentences are. */
  lemma TailsDiffer(x: string, r: string, a: string, r': string, a': string)
    requires r == "Remote testing available: Yes" || r == "Remote testing available: No"
    requires r' == "Remote testing available: Yes" || r' == "Remote testing available: No"
    requires a == "Adaptive testing: Supported" || a == "Adaptive testing: Not supported"
    requires a' == "Adaptive testing: Supported" || a' == "Adaptive testing: Not supported"
    ensures x + r + ". " + a == x + r' + ". " + a' <==> r == r' && a == a'
  {
    var t, t' := x + r + ". " + a, x + r' + ". " + a';
    if t == t' {
      assert t[|x| + 26] == r[26] && t'[|x| + 26] == r'[26];
      assert r == r';
      assert t[|x| + |r| + 2 + 18] == a[18] && t'[|x| + |r| + 2 + 18] == a'[18];
    }
  }
}
