/** The text embedded for each enriched record: its summary, its keywords and its
    full test-type labels, joined by single spaces and stripped. The sentence
    encoder that turns these texts into vectors is foreign and not modelled. */
module EmbeddingTexts {
  import opened Wrappers
  import opened PyStr
  import opened PyDict
  import Enrich

  /** `" ".join(components)` raises when the summary is not a string. */
  datatype Error = TypeError

  /** `item.get("summarization", "")`, which must be a string to be joined. */
  function SummaryPart(item: Enrich.Entry): Result<string, Error> {
    match Get(item, "summarization")
    case None => Success("")
    case Some(v) => if v.Str? then Success(v.s) else Failure(TypeError)
  }

  /** `" ".join(item.get(key, []))`: a list joins its items, a string its characters. */
  function JoinedItems(item: Enrich.Entry, key: string): string {
    match Get(item, key)
    case None => ""
    case Some(v) => Join(" ", Enrich.Items(v))
  }

  /** The combined text of one record, or the error its summary raises. */
  function CombinedText(item: Enrich.Entry): (r: Result<string, Error>)
    ensures r.Failure? <==> Get(item, "summarization").Some? && Get(item, "summarization").value.StrList?
    ensures r.Success? ==> Bare(r.value)
  {
    match SummaryPart(item)
    case Failure(e) => Failure(e)
    case Success(summary) =>
      Success(Strip(Join(" ", [summary, JoinedItems(item, "keywords"), JoinedItems(item, "test_types_full")])))
  }

  /** Three parts joined by single spaces. */
  lemma JoinThree(a: string, b: string, c: string)
    ensures Join(" ", [a, b, c]) == a + " " + b + " " + c
  {
    assert [a, b, c][1..] == [b, c];
    assert [b, c][1..] == [c];
    assert Join(" ", [b, c]) == b + " " + c;
    assert Join(" ", [a, b, c]) == a + " " + (b + " " + c);
  }

  /** The loop over the records: one text per record, in order, or the error of the
      first record whose summary is not a string. */
  method BuildEmbeddingTexts(data: seq<Enrich.Entry>) returns (r: Result<seq<string>, Error>)
    ensures r.Success? <==> forall i :: 0 <= i < |data| ==> CombinedText(data[i]).Success?
    ensures r.Success? ==> |r.value| == |data| && forall i :: 0 <= i < |data| ==> r.value[i] == CombinedText(data[i]).value
  {
    var texts: seq<string> := [];
    var n := 0;
    while n < |data|
      invariant 0 <= n <= |data|
      invariant |texts| == n
      invariant forall i :: 0 <= i < n ==> CombinedText(data[i]).Success? && texts[i] == CombinedText(data[i]).value
    {
      var item := data[n];
      var summary := SummaryPart(item);
      if summary.Failure? {
        assert CombinedText(data[n]).Failure?;
        return Failure(summary.error);
      }
      var components := [summary.value, JoinedItems(item, "keywords"), JoinedItems(item, "test_types_full")];
      var combined := Strip(Join(" ", components));
      assert CombinedText(item) == Success(combined);
      ghost var prev := texts;
      texts := texts + [combined];
      forall i | 0 <= i < n + 1
        ensures CombinedText(data[i]).Success? && texts[i] == CombinedText(data[i]).value
      {
        if i < n {
          assert texts[i] == prev[i];
        }
      }
      n := n + 1;
    }
    return Success(texts);
  }

  /** A record straight from the enrichment step always yields a text: its summary,
      keywords and full labels, space-separated and stripped. */
  lemma EnrichedRecordText(entry: Enrich.Entry, summarizer: string -> Option<string>, tfidf: string -> Option<seq<Enrich.Scored>>)
    ensures var context := Enrich.Context(entry);
            CombinedText(Enrich.ProcessEntry(entry, summarizer, tfidf)) ==
            Success(Strip(Enrich.GenerateSummary(context, summarizer) + " "
                          + Join(" ", Enrich.Keywords(context, tfidf, entry)) + " "
                          + Join(" ", Enrich.FullLabels(entry))))
  {
    var context := Enrich.Context(entry);
    JoinThree(Enrich.GenerateSummary(context, summarizer), Join(" ", Enrich.Keywords(context, tfidf, entry)), Join(" ", Enrich.FullLabels(entry)));
  }

  /** A record with no summary, keywords or labels (missing or empty) yields the empty text. */
  lemma EmptyRecordEmptyText(item: Enrich.Entry)
    requires SummaryPart(item) == Success("")
    requires JoinedItems(item, "keywords") == "" && JoinedItems(item, "test_types_full") == ""
    ensures CombinedText(item) == Success("")
  {
    JoinThree("", "", "");
    StripPadded("  ", "", "");
  }

  /** Three parts, the first and last bare and non-empty, survive the strip exactly. */
  lemma StripKeepsBareEnds(a: string, k: string, t: string)
    requires a != [] && Bare(a) && t != [] && Bare(t)
    ensures Strip(Join(" ", [a, k, t])) == a + " " + k + " " + t
  {
    var core := a + " " + k + " " + t;
    JoinThree(a, k, t);
    assert core[0] == a[0] && core[|core| - 1] == t[|t| - 1];
    StripPadded("", core, "");
    assert "" + core + "" == core;
  }

  /** An empty first part leaves only a leading space, which the strip removes. */
  lemma StripDropsEmptyFirst(k: string, t: string)
    requires k != [] && Bare(k) && t != [] && Bare(t)
    ensures Strip(Join(" ", ["", k, t])) == k + " " + t
  {
    var core := k + " " + t;
    assert Join(" ", ["", k, t]) == " " + core by {
      assert ["", k, t][1..] == [k, t] && [k, t][1..] == [t];
      assert Join(" ", [k, t]) == core;
      assert "" + " " + core == " " + core;
    }
    assert core[0] == k[0] && core[|core| - 1] == t[|t| - 1];
    StripPadded(" ", core, "");
    assert " " + core + "" == " " + core;
  }

  /** When the summary and the labels are non-empty and start and end with non-blank
      characters, the three parts are kept exactly, each separated by one space. */
  lemma BarePartsKept(item: Enrich.Entry, summary: string)
    requires SummaryPart(item) == Success(summary) && summary != [] && Bare(summary)
    requires JoinedItems(item, "test_types_full") != [] && Bare(JoinedItems(item, "test_types_full"))
    ensures CombinedText(item) == Success(summary + " " + JoinedItems(item, "keywords") + " " + JoinedItems(item, "test_types_full"))
  {
    StripKeepsBareEnds(summary, JoinedItems(item, "keywords"), JoinedItems(item, "test_types_full"));
  }

  /** Without a summary, the leading separator is stripped away. */
  lemma MissingSummaryDropsSeparator(item: Enrich.Entry)
    requires Get(item, "summarization").None?
    requires JoinedItems(item, "keywords") != [] && Bare(JoinedItems(item, "keywords"))
    requires JoinedItems(item, "test_types_full") != [] && Bare(JoinedItems(item, "test_types_full"))
    ensures CombinedText(item) == Success(JoinedItems(item, "keywords") + " " + JoinedItems(item, "test_types_full"))
  {
    StripDropsEmptyFirst(JoinedItems(item, "keywords"), JoinedItems(item, "test_types_full"));
  }
}
