/** Enriching a crawler record with a summary, keywords and full test-type labels
    (the second preparation script). The summarisation model and the TF-IDF
    vectoriser are foreign: each is a parameter giving its outcome for a text,
    `None` where it raises. */
module Enrich {
  import opened Wrappers
  import opened PyStr
  import opened PyDict
  import opened Seqs
  import TestTypes

  /** The JSON values a crawler record holds: strings and lists of strings. */
  datatype Value = Str(s: string) | StrList(items: seq<string>)

  type Entry = Dict<Value>

  /** A TF-IDF feature with its score, as the ranking (`argsort()[::-1]`) lists them. */
  datatype Scored = Scored(feature: string, score: real)

  /** `str(v)`: a string is itself; a list is shown as `['a', 'b']`. */
  function Show(v: Value): string {
    match v
    case Str(s) => s
    case StrList(xs) => "[" + Join(", ", seq(|xs|, i requires 0 <= i < |xs| => "'" + xs[i] + "'")) + "]"
  }

  /** `for t in v`: a list yields its items, a string its characters. */
  function Items(v: Value): (r: seq<string>)
    ensures v.StrList? ==> r == v.items
    ensures v.Str? ==> |r| == |v.s| && forall i :: 0 <= i < |r| ==> r[i] == [v.s[i]]
  {
    match v
    case StrList(xs) => xs
    case Str(s) => seq(|s|, i requires 0 <= i < |s| => [s[i]])
  }

  // ---------------------------------------------------------------------------
  // generate_summary

  /** The fallback summary: `text[:150] + "..." if len(text) > 150 else text`. */
  function Truncate(text: string): (r: string)
    ensures |r| <= 153
    ensures |text| <= 150 ==> r == text
    ensures |text| > 150 ==> |r| == 153 && r[..150] == text[..150] && r[150..] == "..."
  {
    if |text| > 150 then text[..150] + "..." else text
  }

  /** Truncating a fallback summary again changes nothing. */
  lemma TruncateIdempotent(text: string)
    ensures Truncate(Truncate(text)) == Truncate(text)
  {
    if |text| > 150 {
      var t := Truncate(text);
      assert t[..150] + "..." == t;
    }
  }

  /** `generate_summary(text, summarizer)`: the model's summary when it succeeds;
      otherwise the text itself up to 150 characters, or its first 150 followed by "...". */
  function GenerateSummary(text: string, summarizer: string -> Option<string>): (r: string)
    ensures summarizer(text).Some? ==> r == summarizer(text).value
    ensures summarizer(text).None? ==> |r| <= 153
    ensures summarizer(text).None? && |text| <= 150 ==> r == text
    ensures summarizer(text).None? && |text| > 150 ==> |r| == 153 && r[..150] == text[..150] && r[150..] == "..."
  {
    match summarizer(text)
    case Some(summary) => summary
    case None => Truncate(text)
  }

  // ---------------------------------------------------------------------------
  // extract_keywords

  /** `[TEST_TYPE_LABELS.get(t, t) for t in entry.get('test_types', [])]`. */
  function FullLabels(entry: Entry): (r: seq<string>)
    ensures Get(entry, "test_types").None? ==> r == []
    ensures Get(entry, "test_types").Some? ==>
      var codes := Items(Get(entry, "test_types").value);
      |r| == |codes| && forall i :: 0 <= i < |r| ==> r[i] == TestTypes.LabelOrCode(codes[i])
  {
    match Get(entry, "test_types")
    case None => []
    case Some(v) =>
      var codes := Items(v);
      seq(|codes|, i requires 0 <= i < |codes| => TestTypes.LabelOrCode(codes[i]))
  }

  /** `f"{entry['duration_minutes']} minutes"` when the key is present. */
  function DurationKeyword(entry: Entry): seq<string> {
    match Get(entry, "duration_minutes")
    case None => []
    case Some(v) => [Show(v) + " minutes"]
  }

  /** The features of a ranking, in ranking order. */
  function Features(ranked: seq<Scored>): (r: seq<string>)
    ensures |r| == |ranked|
    ensures forall j :: 0 <= j < |ranked| ==> r[j] == ranked[j].feature
  {
    if ranked == [] then [] else [ranked[0].feature] + Features(ranked[1..])
  }

  /** The features scoring above 0.1, in ranking order. */
  function Above(ranked: seq<Scored>): (r: seq<string>)
    ensures |r| <= |ranked|
    ensures forall kw :: kw in r ==> exists j :: 0 <= j < |ranked| && ranked[j].feature == kw && ranked[j].score > 0.1
    ensures forall j :: 0 <= j < |ranked| && ranked[j].score > 0.1 ==> ranked[j].feature in r
    ensures Subsequence(r, Features(ranked))
  {
    if ranked == [] then []
    else
      var rest := Above(ranked[1..]);
      AboveStep(ranked, rest);
      (if ranked[0].score > 0.1 then [ranked[0].feature] else []) + rest
  }

  /** One step of `Above`: the head feature, when it scores above 0.1, put before what
      the rest of the ranking keeps. */
  lemma AboveStep(ranked: seq<Scored>, rest: seq<string>)
    requires ranked != []
    requires |rest| <= |ranked| - 1
    requires forall kw :: kw in rest ==> exists j :: 0 <= j < |ranked[1..]| && ranked[1..][j].feature == kw && ranked[1..][j].score > 0.1
    requires forall j :: 0 <= j < |ranked[1..]| && ranked[1..][j].score > 0.1 ==> ranked[1..][j].feature in rest
    requires Subsequence(rest, Features(ranked[1..]))
    ensures var r := (if ranked[0].score > 0.1 then [ranked[0].feature] else []) + rest;
            && |r| <= |ranked|
            && (forall kw :: kw in r ==> exists j :: 0 <= j < |ranked| && ranked[j].feature == kw && ranked[j].score > 0.1)
            && (forall j :: 0 <= j < |ranked| && ranked[j].score > 0.1 ==> ranked[j].feature in r)
            && Subsequence(r, Features(ranked))
  {
    var head := if ranked[0].score > 0.1 then [ranked[0].feature] else [];
    var r := head + rest;
    forall kw | kw in rest
      ensures exists j :: 0 <= j < |ranked| && ranked[j].feature == kw && ranked[j].score > 0.1
    {
      var j :| 0 <= j < |ranked[1..]| && ranked[1..][j].feature == kw && ranked[1..][j].score > 0.1;
      assert ranked[j + 1] == ranked[1..][j];
    }
    forall j | 0 <= j < |ranked| && ranked[j].score > 0.1
      ensures ranked[j].feature in r
    {
      if j > 0 {
        assert ranked[j] == ranked[1..][j - 1];
      }
    }
    assert Features(ranked)[1..] == Features(ranked[1..]);
    if head != [] {
      assert r[0] == Features(ranked)[0] && r[1..] == rest;
      SubsequenceCons(r, Features(ranked));
    } else {
      assert r == rest;
      SubsequenceSkip(r, Features(ranked));
    }
  }

  /** `top_kws`: the first eight features scoring above 0.1. */
  function TopKeywords(ranked: seq<Scored>): (r: seq<string>)
    ensures |r| <= 8
    ensures r <= Above(ranked)
    ensures |r| == if |Above(ranked)| < 8 then |Above(ranked)| else 8
  {
    var above := Above(ranked);
    if |above| < 8 then above else above[..8]
  }

  /** `acc.extend(kw for kw in xs if kw not in acc)`: the generator is consumed while
      `acc` grows, so each keyword is tested against everything added before it. */
  function AddMissing(acc: seq<string>, xs: seq<string>): (r: seq<string>)
    ensures acc <= r
    ensures |r| <= |acc| + |xs|
    ensures forall x :: x in r <==> x in acc || x in xs
    ensures forall i :: |acc| <= i < |r| ==> r[i] !in r[..i]
    ensures Subsequence(r[|acc|..], xs)
    decreases |xs|
  {
    if xs == [] then acc
    else
      var next := if xs[0] in acc then acc else acc + [xs[0]];
      var r := AddMissing(next, xs[1..]);
      assert xs == [xs[0]] + xs[1..];
      assert forall i :: |acc| <= i < |next| ==> r[i] !in r[..i] by {
        if next != acc {
          assert r[..|acc|] == acc;
        }
      }
      assert Subsequence(r[|acc|..], xs) by {
        if next != acc {
          assert r[|acc|..][0] == xs[0] && r[|acc|..][1..] == r[|next|..];
          SubsequenceCons(r[|acc|..], xs);
        } else {
          SubsequenceSkip(r[|acc|..], xs);
        }
      }
      r
  }

  /** The keyword list before the final filter: test-type labels, the duration, then
      TF-IDF keywords, the last only for text with non-whitespace content and a ranking. */
  function Candidates(text: string, tfidf: string -> Option<seq<Scored>>, entry: Entry): seq<string> {
    var base := FullLabels(entry) + DurationKeyword(entry);
    if Strip(text) != "" && tfidf(text).Some? then AddMissing(base, TopKeywords(tfidf(text).value)) else base
  }

  /** `[kw for kw in xs if kw and len(kw) > 2]`. */
  function LongEnough(xs: seq<string>): seq<string>
  {
    if xs == [] then []
    else (if |xs[0]| > 2 then [xs[0]] else []) + LongEnough(xs[1..])
  }

  /** The filter keeps exactly the entries longer than two characters. */
  lemma {:induction false} LongEnoughMembers(xs: seq<string>)
    ensures forall x :: x in LongEnough(xs) <==> x in xs && |x| > 2
  {
    if xs != [] {
      LongEnoughMembers(xs[1..]);
      assert xs == [xs[0]] + xs[1..];
    }
  }

  /** Filtering keeps the relative order of the surviving keywords. */
  lemma {:induction false} LongEnoughSubsequence(xs: seq<string>)
    ensures Subsequence(LongEnough(xs), xs)
  {
    if xs != [] {
      var rest := LongEnough(xs[1..]);
      LongEnoughSubsequence(xs[1..]);
      if |xs[0]| > 2 {
        var r := [xs[0]] + rest;
        assert LongEnough(xs) == r;
        assert r[0] == xs[0] && r[1..] == rest;
      } else {
        assert LongEnough(xs) == rest;
      }
    }
  }

  /** Filtering a concatenation filters each part. */
  lemma {:induction false} LongEnoughAppend(a: seq<string>, b: seq<string>)
    ensures LongEnough(a + b) == LongEnough(a) + LongEnough(b)
  {
    if a == [] {
      assert a + b == b;
    } else {
      var ab := a + b;
      assert ab[0] == a[0];
      assert ab[1..] == a[1..] + b;
      LongEnoughAppend(a[1..], b);
      var head := if |a[0]| > 2 then [a[0]] else [];
      assert LongEnough(ab) == head + LongEnough(ab[1..]);
      assert LongEnough(a) == head + LongEnough(a[1..]);
      assert head + (LongEnough(a[1..]) + LongEnough(b)) == (head + LongEnough(a[1..])) + LongEnough(b);
    }
  }

  /** The keywords of `extract_keywords(text, tfidf, entry)`. */
  function Keywords(text: string, tfidf: string -> Option<seq<Scored>>, entry: Entry): (r: seq<string>)
    ensures forall kw :: kw in r ==> |kw| > 2
  {
    LongEnoughMembers(Candidates(text, tfidf, entry));
    LongEnough(Candidates(text, tfidf, entry))
  }

  /** `keywords.extend(kw for kw in top if kw not in keywords)`, one keyword at a time. */
  method ExtendWithMissing(kws: seq<string>, top: seq<string>) returns (r: seq<string>)
    ensures r == AddMissing(kws, top)
  {
    r := kws;
    var j := 0;
    while j < |top|
      invariant 0 <= j <= |top|
      invariant AddMissing(r, top[j..]) == AddMissing(kws, top)
    {
      assert top[j..][1..] == top[j + 1..];
      if top[j] !in r {
        r := r + [top[j]];
      }
      j := j + 1;
    }
  }

  /** `extract_keywords(text, tfidf, entry)`: a local list extended with the labels,
      appended with the duration and extended with new TF-IDF keywords, then filtered. */
  method ExtractKeywords(text: string, tfidf: string -> Option<seq<Scored>>, entry: Entry) returns (keywords: seq<string>)
    ensures keywords == Keywords(text, tfidf, entry)
  {
    var kws: seq<string> := [];
    var testTypes := Get(entry, "test_types");
    if testTypes.Some? {
      var codes := Items(testTypes.value);
      var i := 0;
      while i < |codes|
        invariant 0 <= i <= |codes|
        invariant kws == FullLabels(entry)[..i]
      {
        kws := kws + [TestTypes.LabelOrCode(codes[i])];
        i := i + 1;
      }
    }
    assert kws == FullLabels(entry);
    var duration := Get(entry, "duration_minutes");
    if duration.Some? {
      kws := kws + [Show(duration.value) + " minutes"];
    }
    ghost var base := kws;
    assert base == FullLabels(entry) + DurationKeyword(entry);
    if Strip(text) != "" {
      var ranking := tfidf(text);
      if ranking.Some? {
        kws := ExtendWithMissing(kws, TopKeywords(ranking.value));
      }
    }
    keywords := LongEnough(kws);
  }

  /** Keywords keep the order of the candidate list, and are exactly its entries longer than two characters. */
  lemma KeywordsKeepOrder(text: string, tfidf: string -> Option<seq<Scored>>, entry: Entry)
    ensures Subsequence(Keywords(text, tfidf, entry), Candidates(text, tfidf, entry))
    ensures forall kw :: kw in Keywords(text, tfidf, entry) <==> kw in Candidates(text, tfidf, entry) && |kw| > 2
  {
    LongEnoughSubsequence(Candidates(text, tfidf, entry));
    LongEnoughMembers(Candidates(text, tfidf, entry));
  }

  /** The test-type labels (those longer than two characters) open the keyword list, in `test_types` order. */
  lemma LabelsComeFirst(text: string, tfidf: string -> Option<seq<Scored>>, entry: Entry)
    ensures LongEnough(FullLabels(entry)) <= Keywords(text, tfidf, entry)
  {
    var labels := FullLabels(entry);
    var base := labels + DurationKeyword(entry);
    var c := Candidates(text, tfidf, entry);
    assert base <= c by {
      if Strip(text) != "" && tfidf(text).Some? {
        assert c == AddMissing(base, TopKeywords(tfidf(text).value));
      }
    }
    PrefixTransitive(labels, base, c);
    var rest := c[|labels|..];
    PrefixSplit(labels, c);
    LongEnoughAppend(labels, rest);
    assert Keywords(text, tfidf, entry) == LongEnough(c);
  }

  lemma PrefixSplit(a: seq<string>, c: seq<string>)
    requires a <= c
    ensures c == a + c[|a|..]
  {
    assert c == c[..|a|] + c[|a|..];
  }

  /** A TF-IDF failure, or text with no non-whitespace content, leaves the labels and duration untouched. */
  lemma NoRankingKeepsEarlierKeywords(text: string, tfidf: string -> Option<seq<Scored>>, entry: Entry)
    requires Strip(text) == "" || tfidf(text).None?
    ensures Keywords(text, tfidf, entry) == LongEnough(FullLabels(entry) + DurationKeyword(entry))
  {
  }

  /** What TF-IDF adds: at most eight keywords, each a feature scoring above 0.1,
      none already in the list and no two alike. */
  lemma TfidfAdditions(text: string, tfidf: string -> Option<seq<Scored>>, entry: Entry)
    requires Strip(text) != "" && tfidf(text).Some?
    ensures var base := FullLabels(entry) + DurationKeyword(entry);
            var c := Candidates(text, tfidf, entry);
            && base <= c
            && |c| - |base| <= 8
            && (forall i :: |base| <= i < |c| ==> c[i] !in c[..i])
            && (forall i :: |base| <= i < |c| ==>
                  exists j :: 0 <= j < |tfidf(text).value| && tfidf(text).value[j].feature == c[i] && tfidf(text).value[j].score > 0.1)
  {
    var ranked := tfidf(text).value;
    var base := FullLabels(entry) + DurationKeyword(entry);
    var c := Candidates(text, tfidf, entry);
    var top := TopKeywords(ranked);
    forall i | |base| <= i < |c|
      ensures exists j :: 0 <= j < |ranked| && ranked[j].feature == c[i] && ranked[j].score > 0.1
    {
      assert c[i] !in base by {
        assert c[..i][..|base|] == base;
      }
      assert c[i] in top;
      assert c[i] in Above(ranked);
    }
  }

  // ---------------------------------------------------------------------------
  // process_entry

  /** The keys that the context leaves out. */
  predicate Generated(k: string) {
    k == "summarization" || k == "keywords"
  }

  /** `str(v) for k, v in entry.items() if k not in ['summarization', 'keywords']`. */
  function ContextValues(entry: Entry): seq<string> {
    if entry == [] then []
    else (if Generated(entry[0].0) then [] else [Show(entry[0].1)]) + ContextValues(entry[1..])
  }

  /** `" | ".join(...)`: the text handed to the summariser and to TF-IDF. */
  function Context(entry: Entry): string {
    Join(" | ", ContextValues(entry))
  }

  /** Storing a summary or keywords in a record leaves its context unchanged. */
  lemma {:induction false} ContextIgnoresGenerated(entry: Entry, k: string, v: Value)
    requires Generated(k)
    ensures Context(Put(entry, k, v)) == Context(entry)
  {
    ContextValuesIgnoreGenerated(entry, k, v);
  }

  lemma {:induction false} ContextValuesIgnoreGenerated(entry: Entry, k: string, v: Value)
    requires Generated(k)
    ensures ContextValues(Put(entry, k, v)) == ContextValues(entry)
  {
    if entry == [] {
      assert ContextValues([(k, v)]) == [] + ContextValues([]);
    } else if entry[0].0 == k {
      assert Put(entry, k, v)[1..] == entry[1..];
    } else {
      ContextValuesIgnoreGenerated(entry[1..], k, v);
      assert Put(entry, k, v) == [entry[0]] + Put(entry[1..], k, v);
      assert Put(entry, k, v)[1..] == Put(entry[1..], k, v);
    }
  }

  /** An item added at the end shows up last in the context, after " | ". */
  lemma {:induction false} ContextAppend(entry: Entry, k: string, v: Value)
    requires !Generated(k) && ContextValues(entry) != []
    ensures Context(entry + [(k, v)]) == Context(entry) + " | " + Show(v)
  {
    ContextValuesAppend(entry, k, v);
    JoinAppend(" | ", ContextValues(entry), Show(v));
  }

  lemma {:induction false} ContextValuesAppend(entry: Entry, k: string, v: Value)
    requires !Generated(k)
    ensures ContextValues(entry + [(k, v)]) == ContextValues(entry) + [Show(v)]
  {
    if entry == [] {
      assert ContextValues([(k, v)]) == [Show(v)] + ContextValues([]);
    } else {
      assert (entry + [(k, v)])[1..] == entry[1..] + [(k, v)];
      ContextValuesAppend(entry[1..], k, v);
    }
  }

  /** `process_entry(entry, summarizer, tfidf)`: every input field is kept, in place and
      unchanged, except that "summarization", "keywords" and "test_types_full" are set. */
  function ProcessEntry(entry: Entry, summarizer: string -> Option<string>, tfidf: string -> Option<seq<Scored>>): (r: Entry)
    ensures Keys(entry) <= Keys(r)
    ensures forall k :: k in Keys(r) <==> k in Keys(entry) || Generated(k) || k == "test_types_full"
    ensures forall k :: !Generated(k) && k != "test_types_full" ==> Get(r, k) == Get(entry, k)
    ensures Get(r, "summarization") == Some(Str(GenerateSummary(Context(entry), summarizer)))
    ensures Get(r, "keywords") == Some(StrList(Keywords(Context(entry), tfidf, entry)))
    ensures Get(r, "test_types_full") == Some(StrList(FullLabels(entry)))
  {
    var context := Context(entry);
    var summary := Str(GenerateSummary(context, summarizer));
    var keywords := StrList(Keywords(context, tfidf, entry));
    var labels := StrList(FullLabels(entry));
    PutThree(entry, "summarization", summary, "keywords", keywords, "test_types_full", labels);
    Put(Put(Put(entry, "summarization", summary), "keywords", keywords), "test_types_full", labels)
  }

  /** `test_types_full` lists, in order, the same labels that open the keyword candidates. */
  lemma FullLabelsOpenCandidates(text: string, tfidf: string -> Option<seq<Scored>>, entry: Entry)
    ensures FullLabels(entry) <= Candidates(text, tfidf, entry)
  {
  }
}
