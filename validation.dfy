/** Username and theme validation: sanitize, check the GitHub username grammar, pick a theme. */
module Validation {
  import opened Types

  /** The character class [a-zA-Z0-9]. */
  predicate IsAlnum(c: char) {
    ('a' <= c <= 'z') || ('A' <= c <= 'Z') || ('0' <= c <= '9')
  }

  /** The character class [a-zA-Z0-9-]: what sanitization keeps. */
  predicate IsAllowed(c: char) {
    IsAlnum(c) || c == '-'
  }

  predicate AllAllowed(s: string) {
    forall i :: 0 <= i < |s| ==> IsAllowed(s[i])
  }

  /** `sub` can be obtained from `s` by deleting characters (order kept). */
  predicate IsSubsequence(sub: string, s: string)
    decreases |s|
  {
    if sub == [] then true
    else if s == [] then false
    else if sub[0] == s[0] then IsSubsequence(sub[1..], s[1..])
    else IsSubsequence(sub, s[1..])
  }

  // ---------------------------------------------------------------- sanitize

  /**
   * sanitizeUsername: deletes every character outside [a-zA-Z0-9-].
   * The result keeps the allowed characters in order (a subsequence of the input)
   * with their multiplicities, and holds nothing else.
   */
  function SanitizeUsername(s: string): (r: string)
    ensures AllAllowed(r)
  {
    if s == [] then []
    else if IsAllowed(s[0]) then [s[0]] + SanitizeUsername(s[1..])
    else SanitizeUsername(s[1..])
  }

  /** The characters kept are in their original order. */
  lemma {:induction false} SanitizeKeepsOrder(s: string)
    ensures IsSubsequence(SanitizeUsername(s), s)
  {
    if s != [] {
      SanitizeKeepsOrder(s[1..]);
      var r := SanitizeUsername(s);
      if !IsAllowed(s[0]) && r != [] {
        // r starts with an allowed character, so it cannot match the dropped s[0]
        assert IsAllowed(r[0]);
      }
    }
  }

  /** Every allowed character keeps its number of occurrences; every other one is gone. */
  lemma {:induction false} SanitizeKeepsCounts(s: string, c: char)
    ensures multiset(SanitizeUsername(s))[c] == if IsAllowed(c) then multiset(s)[c] else 0
  {
    if s != [] {
      assert s == [s[0]] + s[1..];
      SanitizeKeepsCounts(s[1..], c);
    }
  }

  /** Sanitization leaves a string unchanged exactly when it has only allowed characters. */
  lemma {:induction false} SanitizeFixedPoint(s: string)
    ensures SanitizeUsername(s) == s <==> AllAllowed(s)
  {
    if AllAllowed(s) && s != [] {
      assert AllAllowed(s[1..]) by {
        forall i | 0 <= i < |s[1..]| ensures IsAllowed(s[1..][i]) {
          assert s[1..][i] == s[i + 1];
        }
      }
      SanitizeFixedPoint(s[1..]);
    }
  }

  /** Sanitizing twice is sanitizing once. */
  lemma SanitizeIdempotent(s: string)
    ensures SanitizeUsername(SanitizeUsername(s)) == SanitizeUsername(s)
  {
  }

  /** Sanitization works character by character, so it distributes over concatenation. */
  lemma {:induction false} SanitizeAppend(a: string, b: string)
    ensures SanitizeUsername(a + b) == SanitizeUsername(a) + SanitizeUsername(b)
  {
    if a != [] {
      assert (a + b)[0] == a[0];
      assert (a + b)[1..] == a[1..] + b;
      SanitizeAppend(a[1..], b);
      if IsAllowed(a[0]) {
        assert [a[0]] + (SanitizeUsername(a[1..]) + SanitizeUsername(b))
            == ([a[0]] + SanitizeUsername(a[1..])) + SanitizeUsername(b);
      }
    } else {
      assert a + b == b;
    }
  }

  // ---------------------------------------------------------------- validate

  /**
   * The GitHub username grammar, stated directly: 1 to 39 characters, an alphanumeric
   * first character, only alphanumerics and hyphens, and every hyphen followed by an
   * alphanumeric (so no trailing hyphen and no two hyphens in a row).
   */
  predicate IsGitHubUsername(s: string) {
    && 1 <= |s| <= 39
    && IsAlnum(s[0])
    && AllAllowed(s)
    && forall i :: 0 <= i < |s| && s[i] == '-' ==> i + 1 < |s| && IsAlnum(s[i + 1])
  }

  /** One repetition of the group `(?:[a-zA-Z0-9]|-(?=[a-zA-Z0-9]))` at index i. */
  predicate GroupAt(s: string, i: nat)
    requires i < |s|
  {
    IsAlnum(s[i]) || (s[i] == '-' && i + 1 < |s| && IsAlnum(s[i + 1]))
  }

  /**
   * The rest of the pattern from index i: at most `reps` repetitions of the group, then `$`.
   * Each repetition consumes exactly one character and its two alternatives never both
   * apply, so backtracking cannot change the outcome.
   */
  predicate TailMatches(s: string, i: nat, reps: nat)
    requires i <= |s|
    decreases |s| - i
  {
    if i == |s| then true
    else reps > 0 && GroupAt(s, i) && TailMatches(s, i + 1, reps - 1)
  }

  /** The regular expression `^[a-zA-Z0-9](?:[a-zA-Z0-9]|-(?=[a-zA-Z0-9])){0,38}$`. */
  predicate UsernameRegexTest(s: string): (matched: bool)
    ensures matched ==> 1 <= |s| <= 39
  {
    if |s| == 0 then false
    else
      TailMatchesMeaning(s, 1, 38);
      IsAlnum(s[0]) && TailMatches(s, 1, 38)
  }

  lemma {:induction false} TailMatchesMeaning(s: string, i: nat, reps: nat)
    requires i <= |s|
    ensures TailMatches(s, i, reps) <==> |s| - i <= reps && forall j :: i <= j < |s| ==> GroupAt(s, j)
    decreases |s| - i
  {
    if i < |s| && reps > 0 {
      TailMatchesMeaning(s, i + 1, reps - 1);
    }
  }

  lemma GrammarImpliesRegex(s: string)
    requires IsGitHubUsername(s)
    ensures UsernameRegexTest(s)
  {
    forall j | 1 <= j < |s| ensures GroupAt(s, j) {
      assert IsAllowed(s[j]);
    }
    TailMatchesMeaning(s, 1, 38);
  }

  lemma RegexImpliesGrammar(s: string)
    requires UsernameRegexTest(s)
    ensures IsGitHubUsername(s)
  {
    TailMatchesMeaning(s, 1, 38);
    assert forall j :: 1 <= j < |s| ==> GroupAt(s, j);
    forall j | 0 <= j < |s| ensures IsAllowed(s[j]) {
      if j > 0 { assert GroupAt(s, j); }
    }
    forall j | 0 <= j < |s| && s[j] == '-' ensures j + 1 < |s| && IsAlnum(s[j + 1]) {
      assert j > 0;
      assert GroupAt(s, j);
    }
  }

  /** The regular expression accepts exactly the strings of the username grammar. */
  lemma RegexMatchesGrammar(s: string)
    ensures UsernameRegexTest(s) <==> IsGitHubUsername(s)
  {
    if IsGitHubUsername(s) { GrammarImpliesRegex(s); }
    if UsernameRegexTest(s) { RegexImpliesGrammar(s); }
  }

  /**
   * validateGitHubUsername: the empty string is refused before the length check,
   * the length check before the regular expression. The result is the grammar above.
   */
  function ValidateGitHubUsername(s: string): (ok: bool)
    ensures ok <==> IsGitHubUsername(s)
  {
    RegexMatchesGrammar(s);
    if |s| == 0 then false
    else if |s| < 1 || |s| > 39 then false
    else UsernameRegexTest(s)
  }

  /** Every valid username is made of allowed characters only, so sanitizing keeps it. */
  lemma ValidIsSanitized(s: string)
    requires IsGitHubUsername(s)
    ensures SanitizeUsername(s) == s
  {
    SanitizeFixedPoint(s);
  }

  // ---------------------------------------------------------------- process

  /** processUsername: sanitize first, then validate; `None` stands for the source's `null`. */
  function ProcessUsername(s: string): (r: Option<string>)
    ensures r.Some? <==> IsGitHubUsername(SanitizeUsername(s))
    ensures r.Some? ==> r.value == SanitizeUsername(s)
    ensures r.Some? ==> IsGitHubUsername(r.value) && IsSubsequence(r.value, s)
  {
    SanitizeKeepsOrder(s);
    var sanitized := SanitizeUsername(s);
    if !ValidateGitHubUsername(sanitized) then None else Some(sanitized)
  }

  /** A processed username processes to itself. */
  lemma ProcessIdempotent(s: string)
    ensures ProcessUsername(s).Some? ==> ProcessUsername(ProcessUsername(s).value) == ProcessUsername(s)
  {
    if ProcessUsername(s).Some? {
      ValidIsSanitized(ProcessUsername(s).value);
    }
  }

  /** The strings `ProcessUsername` returns unchanged are exactly the valid usernames. */
  lemma ProcessFixedPoints(t: string)
    ensures ProcessUsername(t) == Some(t) <==> IsGitHubUsername(t)
  {
    if IsGitHubUsername(t) {
      ValidIsSanitized(t);
    }
  }

  /** A plain name passes through unchanged. */
  lemma ProcessPlainName()
    ensures ProcessUsername("torvalds") == Some("torvalds")
  {
    assert IsGitHubUsername("torvalds");
    ProcessFixedPoints("torvalds");
  }

  /** A leading hyphen is refused. */
  lemma ProcessLeadingHyphen()
    ensures ProcessUsername("-bad") == None
  {
  }

  /** Two hyphens in a row are refused. */
  lemma ProcessDoubleHyphen()
    ensures ProcessUsername("a--b") == None
  {
  }

  /** Markup characters are stripped before validation, so "<script>" becomes "script". */
  lemma ProcessStripsMarkup()
    ensures ProcessUsername("<script>") == Some("script")
  {
    assert "<script>"[1..] == "script" + ">";
    assert SanitizeUsername("<script>") == SanitizeUsername("script" + ">");
    SanitizeAppend("script", ">");
    assert SanitizeUsername(">") == [];
    assert AllAllowed("script");
    SanitizeFixedPoint("script");
    assert IsGitHubUsername("script");
  }

  /** Forty characters are one too many, even when all are letters. */
  lemma ProcessTooLong(s: string)
    requires |s| == 40 && AllAllowed(s)
    ensures ProcessUsername(s) == None
  {
    SanitizeFixedPoint(s);
  }

  // ---------------------------------------------------------------- theme and errors

  /** validateTheme: `light` only for the exact text "light"; everything else, absent included, is `dark`. */
  function ValidateTheme(theme: Option<string>): (r: Theme)
    ensures r == Light <==> theme == Some("light")
  {
    if theme == Some("light") then Light
    else if theme == Some("dark") then Dark
    else Dark
  }

  const FetchFailedText := "An error occurred while fetching data"
  const UnexpectedText := "An unexpected error occurred"

  /**
   * createSafeErrorMessage: one of two fixed texts, chosen only by whether the thrown
   * value is an `Error`; the error's own message never reaches the result.
   */
  function CreateSafeErrorMessage(error: Thrown): (r: string)
    ensures r == FetchFailedText || r == UnexpectedText
    ensures r == FetchFailedText <==> error.ErrorInstance?
  {
    match error
    case ErrorInstance(_) => FetchFailedText
    case NonErrorValue => UnexpectedText
  }

  /** The safe message does not depend on the text of the error. */
  lemma SafeMessageIgnoresText(m1: string, m2: string)
    ensures CreateSafeErrorMessage(ErrorInstance(m1)) == CreateSafeErrorMessage(ErrorInstance(m2))
  {
  }
}
