/** The recommendation endpoint: for the positions the nearest-neighbour search
    returns, look up each record and project it onto the fields shown to the user.
    The sentence encoder and the vector index are foreign; their answer for a query
    (one row of positions, `max_results` long) is a parameter. */
module Recommend {
  import opened Wrappers
  import opened PyStr
  import opened PyDict
  import opened Seqs
  import Enrich

  /** The request body; `max_results` defaults to ten. */
  datatype Query = Query(text: string, maxResults: int := 10)

  /** A request that gives only its text asks for ten results. */
  lemma DefaultQuery(text: string)
    ensures Query(text) == Query(text, 10)
  {
  }

  /** One entry of the response's result list. */
  datatype ResultView = ResultView(
    assessmentName: Enrich.Value,
    url: Enrich.Value,
    remoteTesting: Enrich.Value,
    adaptiveSupport: Enrich.Value,
    duration: string,
    testTypes: string)

  datatype Response = Response(query: string, results: seq<ResultView>)

  datatype Error = IndexError(position: int) | KeyError(key: string)

  /** `assessments[idx]` on a list of `n` records: negative positions count from the end. */
  function Resolve(n: nat, idx: int): (r: Option<nat>)
    ensures r.Some? <==> -(n as int) <= idx < n
    ensures r.Some? ==> r.value < n && r.value == idx % n
  {
    if 0 <= idx < n then Some(idx)
    else if -(n as int) <= idx < 0 then Some(n + idx)
    else None
  }

  /** `assessment[key]`. */
  function Field(a: Enrich.Entry, key: string): (r: Result<Enrich.Value, Error>)
    ensures r.Success? <==> key in Keys(a)
    ensures r.Success? ==> Get(a, key) == Some(r.value)
    ensures r.Failure? ==> r.error == KeyError(key)
  {
    match Get(a, key)
    case None => Failure(KeyError(key))
    case Some(v) => Success(v)
  }

  /** The keys the projection reads with `[]`, in the order the dict display evaluates them. */
  const Required: seq<string> := ["title", "url", "remote_testing", "duration_minutes", "test_types_full"]

  /** The result dict for one record; the first missing required key raises. */
  function Project(a: Enrich.Entry): Result<ResultView, Error> {
    match Field(a, "title")
    case Failure(e) => Failure(e)
    case Success(name) =>
      match Field(a, "url")
      case Failure(e) => Failure(e)
      case Success(url) =>
        match Field(a, "remote_testing")
        case Failure(e) => Failure(e)
        case Success(remote) =>
          var adaptive := Get(a, "adaptive_supported").GetOr(Enrich.Str("No Information"));
          match Field(a, "duration_minutes")
          case Failure(e) => Failure(e)
          case Success(duration) =>
            match Field(a, "test_types_full")
            case Failure(e) => Failure(e)
            case Success(types) =>
              Success(ResultView(name, url, remote, adaptive,
                                 Enrich.Show(duration) + " minutes",
                                 Join(", ", Enrich.Items(types))))
  }

  /** A record projects exactly when it has every required key; otherwise the error
      names the first required key it lacks. */
  lemma ProjectFails(a: Enrich.Entry)
    ensures Project(a).Success? <==> forall i :: 0 <= i < |Required| ==> Required[i] in Keys(a)
    ensures Project(a).Failure? ==>
      exists i :: 0 <= i < |Required| && Project(a).error == KeyError(Required[i])
        && Required[i] !in Keys(a) && forall j :: 0 <= j < i ==> Required[j] in Keys(a)
  {
    if Project(a).Failure? {
      if "title" !in Keys(a) {
        assert Project(a).error == KeyError(Required[0]);
      } else if "url" !in Keys(a) {
        assert Project(a).error == KeyError(Required[1]);
      } else if "remote_testing" !in Keys(a) {
        assert Project(a).error == KeyError(Required[2]);
      } else if "duration_minutes" !in Keys(a) {
        assert Project(a).error == KeyError(Required[3]);
      } else {
        assert Project(a).error == KeyError(Required[4]);
      }
    }
  }

  /** What a projected record shows: its own name, URL and remote-testing value, its
      adaptive support or "No Information", its duration followed by " minutes", and
      its full test-type labels separated by ", ". */
  lemma ProjectShows(a: Enrich.Entry)
    requires Project(a).Success?
    ensures var v := Project(a).value;
      && Get(a, "title") == Some(v.assessmentName)
      && Get(a, "url") == Some(v.url)
      && Get(a, "remote_testing") == Some(v.remoteTesting)
      && (Get(a, "adaptive_supported").None? ==> v.adaptiveSupport == Enrich.Str("No Information"))
      && (Get(a, "adaptive_supported").Some? ==> Get(a, "adaptive_supported") == Some(v.adaptiveSupport))
      && v.duration == Enrich.Show(Get(a, "duration_minutes").value) + " minutes"
      && v.testTypes == Join(", ", Enrich.Items(Get(a, "test_types_full").value))
  {
  }

  /** The result for one position: the record there, projected. */
  function Slot(assessments: seq<Enrich.Entry>, idx: int): Result<ResultView, Error> {
    match Resolve(|assessments|, idx)
    case None => Failure(IndexError(idx))
    case Some(i) => Project(assessments[i])
  }

  /** `f` applied to each element in order, stopping at the first failure. */
  function MapUntilFailure<T, U, E>(xs: seq<T>, f: T -> Result<U, E>): Result<seq<U>, E> {
    if xs == [] then Success([])
    else
      match MapUntilFailure(xs[..|xs| - 1], f)
      case Failure(e) => Failure(e)
      case Success(prev) =>
        match f(xs[|xs| - 1])
        case Failure(e) => Failure(e)
        case Success(v) => Success(prev + [v])
  }

  lemma {:induction false} MapInOrder<T, U, E>(xs: seq<T>, f: T -> Result<U, E>)
    ensures MapUntilFailure(xs, f).Success? <==> forall j :: 0 <= j < |xs| ==> f(xs[j]).Success?
    ensures MapUntilFailure(xs, f).Success? ==>
      |MapUntilFailure(xs, f).value| == |xs|
      && forall j :: 0 <= j < |xs| ==> f(xs[j]) == Success(MapUntilFailure(xs, f).value[j])
  {
    if xs != [] {
      var init := xs[..|xs| - 1];
      MapInOrder(init, f);
      assert forall j :: 0 <= j < |init| ==> init[j] == xs[j];
    }
  }

  lemma {:induction false} MapFirstError<T, U, E>(xs: seq<T>, f: T -> Result<U, E>)
    requires MapUntilFailure(xs, f).Failure?
    ensures exists j :: (0 <= j < |xs| && f(xs[j]) == Failure(MapUntilFailure(xs, f).error)
      && forall i :: 0 <= i < j ==> f(xs[i]).Success?)
  {
    var init := xs[..|xs| - 1];
    assert forall j :: 0 <= j < |init| ==> init[j] == xs[j];
    if MapUntilFailure(init, f).Failure? {
      MapFirstError(init, f);
      var j :| 0 <= j < |init| && f(init[j]) == Failure(MapUntilFailure(init, f).error)
        && forall i :: 0 <= i < j ==> f(init[i]).Success?;
      assert xs[j] == init[j];
    } else {
      MapInOrder(init, f);
    }
  }

  /** The result list for a row of positions, built in order; the first failing
      position ends it with its error. */
  function Results(assessments: seq<Enrich.Entry>, positions: seq<int>): Result<seq<ResultView>, Error> {
    MapUntilFailure(positions, idx => Slot(assessments, idx))
  }

  /** The results succeed exactly when every position names a record that projects;
      then there is one result per position, in the order of the positions. */
  lemma ResultsInOrder(assessments: seq<Enrich.Entry>, positions: seq<int>)
    ensures Results(assessments, positions).Success? <==>
      forall j :: 0 <= j < |positions| ==> Slot(assessments, positions[j]).Success?
    ensures Results(assessments, positions).Success? ==>
      var r := Results(assessments, positions).value;
      |r| == |positions| && forall j :: 0 <= j < |positions| ==> Slot(assessments, positions[j]) == Success(r[j])
  {
    MapInOrder(positions, idx => Slot(assessments, idx));
  }

  /** A failing row carries the error of its first failing position. */
  lemma ResultsFirstError(assessments: seq<Enrich.Entry>, positions: seq<int>)
    requires Results(assessments, positions).Failure?
    ensures exists j :: (0 <= j < |positions|
      && Slot(assessments, positions[j]) == Failure(Results(assessments, positions).error)
      && forall i :: 0 <= i < j ==> Slot(assessments, positions[i]).Success?)
  {
    MapFirstError(positions, idx => Slot(assessments, idx));
  }

  /** `recommend(query)`: the loop over the search's positions, echoing the query text. */
  method Recommend(assessments: seq<Enrich.Entry>, query: Query, positions: seq<int>) returns (r: Result<Response, Error>)
    ensures r.Success? <==> Results(assessments, positions).Success?
    ensures r.Success? ==> r.value == Response(query.text, Results(assessments, positions).value)
    ensures r.Failure? ==> r.error == Results(assessments, positions).error
  {
    var results: seq<ResultView> := [];
    var n := 0;
    while n < |positions|
      invariant 0 <= n <= |positions|
      invariant Results(assessments, positions[..n]) == Success(results)
    {
      assert positions[..n + 1][..n] == positions[..n];
      var idx := positions[n];
      var i := Resolve(|assessments|, idx);
      if i.None? {
        r := Failure(IndexError(idx));
        FirstFailureStops(assessments, positions, n + 1);
        return;
      }
      var view := Project(assessments[i.value]);
      if view.Failure? {
        r := Failure(view.error);
        FirstFailureStops(assessments, positions, n + 1);
        return;
      }
      results := results + [view.value];
      n := n + 1;
    }
    assert positions[..n] == positions;
    r := Success(Response(query.text, results));
  }

  /** A failure within the first `n` positions is the failure of the whole row. */
  lemma {:induction false} FirstFailureStops(assessments: seq<Enrich.Entry>, positions: seq<int>, n: nat)
    requires n <= |positions|
    requires Results(assessments, positions[..n]).Failure?
    ensures Results(assessments, positions) == Results(assessments, positions[..n])
    decreases |positions| - n
  {
    if n < |positions| {
      assert positions[..n + 1][..n] == positions[..n];
      FirstFailureStops(assessments, positions, n + 1);
    } else {
      assert positions[..n] == positions;
    }
  }

  /** Position -1 is the last record, the padding the index search puts in a row
      that asks for more neighbours than the index holds. */
  lemma PaddingShowsLastRecord(assessments: seq<Enrich.Entry>, positions: seq<int>, j: nat)
    requires |assessments| > 0 && j < |positions| && positions[j] == -1
    requires Results(assessments, positions).Success?
    ensures j < |Results(assessments, positions).value|
      && Success(Results(assessments, positions).value[j]) == Slot(assessments, |assessments| - 1)
  {
    ResultsInOrder(assessments, positions);
    assert Resolve(|assessments|, -1) == Resolve(|assessments|, |assessments| - 1);
  }

  /** The positions that name a record, leaving out the search's -1 padding. */
  function Found(positions: seq<int>): (r: seq<int>)
    ensures forall j :: 0 <= j < |r| ==> r[j] >= 0
    ensures forall p :: p in r <==> p in positions && p >= 0
    ensures Subsequence(r, positions)
  {
    if positions == [] then []
    else
      var init := positions[..|positions| - 1];
      var last := positions[|positions| - 1];
      assert positions == init + [last];
      SubsequenceExtend(Found(init), init, last);
      if last >= 0 then Found(init) + [last] else Found(init)
  }

  /** Filtering a concatenation filters each part: the kept positions stay in row
      order, repeats included. */
  lemma {:induction false} FoundAppend(a: seq<int>, b: seq<int>)
    ensures Found(a + b) == Found(a) + Found(b)
    decreases |b|
  {
    if b == [] {
      assert a + b == a;
    } else {
      var init := b[..|b| - 1];
      var last := b[|b| - 1];
      assert a + b == (a + init) + [last];
      assert (a + b)[..|a + b| - 1] == a + init;
      assert b[..|b| - 1] == init;
      FoundAppend(a, init);
    }
  }

  /** Results for the found positions only. */
  function IntendedResults(assessments: seq<Enrich.Entry>, positions: seq<int>): Result<seq<ResultView>, Error> {
    Results(assessments, Found(positions))
  }

  /** Padding after the found positions adds nothing to the intended results. */
  lemma {:induction false} PaddingAddsNothing(assessments: seq<Enrich.Entry>, found: seq<int>, padding: nat)
    requires forall j :: 0 <= j < |found| ==> found[j] >= 0
    ensures IntendedResults(assessments, found + seq(padding, _ => -1)) == Results(assessments, found)
  {
    FoundPadded(found, padding);
  }

  lemma {:induction false} FoundPadded(found: seq<int>, padding: nat)
    requires forall j :: 0 <= j < |found| ==> found[j] >= 0
    ensures Found(found + seq(padding, _ => -1)) == found
  {
    var s := found + seq(padding, _ => -1);
    if padding == 0 {
      assert s == found;
      FoundAllNonNegative(found);
    } else {
      assert s[..|s| - 1] == found + seq(padding - 1, _ => -1);
      FoundPadded(found, padding - 1);
    }
  }

  lemma {:induction false} FoundAllNonNegative(found: seq<int>)
    requires forall j :: 0 <= j < |found| ==> found[j] >= 0
    ensures Found(found) == found
  {
    if found != [] {
      var init := found[..|found| - 1];
      FoundAllNonNegative(init);
      assert found == init + [found[|found| - 1]];
    }
  }
}
