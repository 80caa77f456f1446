/** Extracting a number of minutes from the free-text "Assessment length" field
    (`parse_duration`). Two regular expressions are tried in turn with
    `re.search`, which reports the leftmost position where its pattern matches. */
module Duration {
  import opened Wrappers
  import opened PyStr

  /** The two patterns, in the order they are tried:
      `=\s*(\d+)` and then `(\d+)\s*min` matched ignoring case. */
  datatype Pattern = EqualsDigits | DigitsMin

  /** Case-insensitive match of one character against a lower-case letter. */
  predicate SameLetter(c: char, lower: char) {
    LowerChar(c) == lower
  }

  /** The pattern matches when the regex engine starts at position `p`.
      Whitespace and digits are disjoint, so backtracking into `\s*` or
      `\d+` never finds a match the greedy attempt missed. */
  predicate MatchAt(pat: Pattern, s: string, p: nat) {
    match pat
    case EqualsDigits =>
      p < |s| && s[p] == '=' &&
      var j := SkipSpaces(s, p + 1);
      j < |s| && IsDigit(s[j])
    case DigitsMin =>
      p < |s| && IsDigit(s[p]) &&
      var r := SkipSpaces(s, SkipDigits(s, p));
      r + 3 <= |s| && SameLetter(s[r], 'm') && SameLetter(s[r + 1], 'i') && SameLetter(s[r + 2], 'n')
  }

  /** Where the captured group `(\d+)` begins. */
  function GroupStart(pat: Pattern, s: string, p: nat): (g: nat)
    requires MatchAt(pat, s, p)
    ensures g < |s| && IsDigit(s[g])
  {
    match pat
    case EqualsDigits => SkipSpaces(s, p + 1)
    case DigitsMin => p
  }

  /** The captured digits: a maximal run, since `\d+` is greedy. */
  function Group(pat: Pattern, s: string, p: nat): (g: string)
    requires MatchAt(pat, s, p)
    ensures g != []
    ensures forall m :: 0 <= m < |g| ==> IsDigit(g[m])
  {
    var start := GroupStart(pat, s, p);
    s[start..SkipDigits(s, start)]
  }

  /** `int(match.group(1))`. */
  function Value(pat: Pattern, s: string, p: nat): nat
    requires MatchAt(pat, s, p)
  {
    DigitsValue(Group(pat, s, p))
  }

  /** `re.search` from position `from`: the leftmost match position, if any. */
  function Search(pat: Pattern, s: string, from: nat): (r: Option<nat>)
    requires from <= |s|
    ensures r.Some? ==> from <= r.value < |s| && MatchAt(pat, s, r.value)
    ensures r.Some? ==> forall q :: from <= q < r.value ==> !MatchAt(pat, s, q)
    ensures r.None? ==> forall q :: from <= q ==> !MatchAt(pat, s, q)
    decreases |s| - from
  {
    if from == |s| then None
    else if MatchAt(pat, s, from) then Some(from)
    else Search(pat, s, from + 1)
  }

  /** `parse_duration(text)`: a duration exactly when one of the two patterns matches. */
  function ParseDuration(text: string): (r: Option<nat>)
    ensures r.Some? <==> (exists p: nat :: MatchAt(EqualsDigits, text, p)) || (exists p: nat :: MatchAt(DigitsMin, text, p))
  {
    match Search(EqualsDigits, text, 0)
    case Some(p) => Some(Value(EqualsDigits, text, p))
    case None =>
      match Search(DigitsMin, text, 0)
      case Some(p) => Some(Value(DigitsMin, text, p))
      case None => None
  }

  /** `p` is where `re.search` reports its match: the leftmost matching position. */
  ghost predicate Leftmost(pat: Pattern, s: string, p: nat) {
    MatchAt(pat, s, p) && forall q: nat :: q < p ==> !MatchAt(pat, s, q)
  }

  /** The search finds the leftmost match. */
  lemma SearchFindsLeftmost(pat: Pattern, s: string, p: nat)
    requires Leftmost(pat, s, p)
    ensures Search(pat, s, 0) == Some(p)
  {
    var r := Search(pat, s, 0);
    assert r.Some?;
  }

  /** The `=` rule wins whenever it matches anywhere; otherwise the leftmost
      "digits, optional whitespace, min" is read; otherwise there is no duration. */
  lemma ParseDurationPriority(text: string)
    ensures forall p: nat :: Leftmost(EqualsDigits, text, p) ==> ParseDuration(text) == Some(Value(EqualsDigits, text, p))
    ensures (forall q: nat :: !MatchAt(EqualsDigits, text, q)) ==>
              forall p: nat :: Leftmost(DigitsMin, text, p) ==> ParseDuration(text) == Some(Value(DigitsMin, text, p))
  {
    forall p: nat | Leftmost(EqualsDigits, text, p)
      ensures ParseDuration(text) == Some(Value(EqualsDigits, text, p))
    {
      SearchFindsLeftmost(EqualsDigits, text, p);
    }
    if forall q: nat :: !MatchAt(EqualsDigits, text, q) {
      forall p: nat | Leftmost(DigitsMin, text, p)
        ensures ParseDuration(text) == Some(Value(DigitsMin, text, p))
      {
        SearchFindsLeftmost(DigitsMin, text, p);
      }
    }
  }

  /** The leftmost "N min" match starts at the beginning of a digit run, so the
      number read is the whole run of digits before the optional whitespace and "min". */
  lemma LeftmostMinTakesWholeRun(s: string, p: nat)
    requires Leftmost(DigitsMin, s, p)
    ensures p == 0 || !IsDigit(s[p - 1])
  {
    if p > 0 && IsDigit(s[p - 1]) {
      assert MatchAt(DigitsMin, s, p - 1) by {
        assert SkipDigits(s, p - 1) == SkipDigits(s, p);
      }
    }
  }

  /** The `=` rule takes priority even when a "N min" phrase comes earlier in the text. */
  lemma EqualsRuleWins()
    ensures ParseDuration("40 min = 5") == Some(5)
  {
    var s := "40 min = 5";
    assert MatchAt(EqualsDigits, s, 7);
    assert Group(EqualsDigits, s, 7) == "5";
    assert '=' !in s[..7];
    assert Leftmost(EqualsDigits, s, 7) by {
      forall q: nat | q < 7 ensures !MatchAt(EqualsDigits, s, q) {
        assert s[q] == s[..7][q];
      }
    }
    ParseDurationPriority(s);
  }

  /** "min" is matched ignoring case and after optional whitespace. */
  lemma MinRuleIgnoresCase()
    ensures ParseDuration("12 MIN") == Some(12)
  {
    var s := "12 MIN";
    assert forall q: nat :: !MatchAt(EqualsDigits, s, q) by {
      assert '=' !in s;
    }
    assert SkipDigits(s, 0) == 2 by {
      assert SkipDigits(s, 2) == 2;
    }
    assert SkipSpaces(s, 2) == 3 by {
      assert SkipSpaces(s, 3) == 3;
    }
    assert LowerChar('M') == 'm' && LowerChar('I') == 'i' && LowerChar('N') == 'n';
    assert MatchAt(DigitsMin, s, 0);
    assert Group(DigitsMin, s, 0) == "12";
    assert DigitsValue("12") == 12 by {
      assert "12"[..1] == "1";
    }
    ParseDurationPriority(s);
  }

  /** "Untimed", with neither an `=` nor a digit, has no duration. */
  lemma NoNumberNoDuration()
    ensures ParseDuration("Untimed") == None
  {
    var s := "Untimed";
    assert '=' !in s;
    assert forall m :: 0 <= m < |s| ==> !IsDigit(s[m]);
  }
}
