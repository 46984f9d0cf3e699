/** The filename scanners of the renamer: episode, season and quality extraction and the small
    quality ranking. Each tries an ordered list of regular expressions; the first pattern that
    matches anywhere in the name decides, and within a pattern the leftmost match wins.

    Every pattern is a matcher at one start position. Where a greedy or optional part could in
    principle be backtracked but doing so can never produce a match (because the character that
    would then follow is one the next part of the pattern rejects), the matcher takes the
    greedy choice only and says why; where backtracking does change the result, it is written
    out. */
module Extract {
  import opened Text
  import opened Regex

  /** A captured group `[start, end)` of the filename. */
  type Span = (nat, nat)

  /** A non-empty group made only of digits. */
  predicate DigitSpan(s: string, g: Span) {
    g.0 < g.1 <= |s| && forall j :: g.0 <= j < g.1 ==> IsDigit(s[j])
  }

  /** `int(group)` */
  function GroupValue(s: string, g: Span): nat
    requires DigitSpan(s, g)
  {
    DecimalValue(s[g.0..g.1])
  }

  predicate IsOpenBracket(c: char) { c == '(' || c == '[' || c == '<' || c == '{' }

  predicate IsCloseBracket(c: char) { c == ')' || c == ']' || c == '>' || c == '}' }

  function DigitsFrom(s: string, j: nat): (r: Option<Span>)
    requires j <= |s|
    ensures r.Some? ==> DigitSpan(s, r.value) && r.value.0 == j
  {
    var d := RunEnd(s, j, IsDigit);
    if d > j then Some((j, d)) else None
  }

  // ---------------------------------------------------------------------------------------
  // extract_episode_number
  // ---------------------------------------------------------------------------------------

  /** `(?:E|EP)(\d+)` at `j`, case-sensitive; the alternative `E` is tried first. */
  function EThenDigits(s: string, j: nat): (r: Option<Span>)
    ensures r.Some? ==> DigitSpan(s, r.value) && j < r.value.0
  {
    if j < |s| && s[j] == 'E' then
      match DigitsFrom(s, j + 1)
      case Some(g) => Some(g)
      case None => if OccursAt(s, j, "EP") then DigitsFrom(s, j + 2) else None
    else None
  }

  /** `S(\d+)(?:E|EP)(\d+)`, yielding the last group. The first `\d+` is followed by a letter,
      so giving back digits cannot help: it takes the whole run. */
  function EpisodePattern1(s: string, i: nat): (r: Option<Span>)
    ensures r.Some? ==> DigitSpan(s, r.value) && i < r.value.0
  {
    if i < |s| && s[i] == 'S' then
      var d := RunEnd(s, i + 1, IsDigit);
      if d > i + 1 then EThenDigits(s, d) else None
    else None
  }

  /** `S(\d+)\s*(?:E|EP|-\s*EP)(\d+)`, yielding the last group. Each `\s*` is followed by
      `E` or `-`, so only its longest run can succeed. */
  function EpisodePattern2(s: string, i: nat): (r: Option<Span>)
    ensures r.Some? ==> DigitSpan(s, r.value) && i < r.value.0
  {
    if i < |s| && s[i] == 'S' then
      var d := RunEnd(s, i + 1, IsDigit);
      if d > i + 1 then
        var w := RunEnd(s, d, IsSpace);
        match EThenDigits(s, w)
        case Some(g) => Some(g)
        case None =>
          if w < |s| && s[w] == '-' then
            var w2 := RunEnd(s, w + 1, IsSpace);
            if OccursAt(s, w2, "EP") then DigitsFrom(s, w2 + 2) else None
          else None
      else None
    else None
  }

  /** `(?:E|EP)\s*(\d+)` at `j`, case-sensitive. */
  function ESpacesDigits(s: string, j: nat): (r: Option<Span>)
    ensures r.Some? ==> DigitSpan(s, r.value) && j < r.value.0
  {
    if j < |s| && s[j] == 'E' then
      match DigitsFrom(s, RunEnd(s, j + 1, IsSpace))
      case Some(g) => Some(g)
      case None => if OccursAt(s, j, "EP") then DigitsFrom(s, RunEnd(s, j + 2, IsSpace)) else None
    else None
  }

  /** `[([<{]?\s*(?:E|EP)\s*(\d+)\s*[)\]>}]?`: the optional opening bracket is tried first and
      then left out; the trailing optional part always matches. */
  function EpisodePattern3(s: string, i: nat): (r: Option<Span>)
    ensures r.Some? ==> DigitSpan(s, r.value) && i <= r.value.0
  {
    if i > |s| then None
    else
      var withBracket :=
        if i < |s| && IsOpenBracket(s[i]) then ESpacesDigits(s, RunEnd(s, i + 1, IsSpace)) else None;
      if withBracket.Some? then withBracket else ESpacesDigits(s, RunEnd(s, i, IsSpace))
  }

  /** `\s*-\s*(\d+)\s*` */
  function EpisodePattern3b(s: string, i: nat): (r: Option<Span>)
    ensures r.Some? ==> DigitSpan(s, r.value) && i <= r.value.0
  {
    if i > |s| then None
    else
      var w := RunEnd(s, i, IsSpace);
      if w < |s| && s[w] == '-' then DigitsFrom(s, RunEnd(s, w + 1, IsSpace)) else None
  }

  /** `S(\d+)[^\d]*(\d+)` with `re.IGNORECASE`, yielding the last group. When no digit
      follows the first number, the engine gives the first group's last digit to the second
      group, so `S12` alone yields `2`. */
  function EpisodePattern4(s: string, i: nat): (r: Option<Span>)
    ensures r.Some? ==> DigitSpan(s, r.value) && i < r.value.0
  {
    if i < |s| && (s[i] == 'S' || s[i] == 's') then
      var d := RunEnd(s, i + 1, IsDigit);
      if d <= i + 1 then None
      else
        var n := RunEnd(s, d, IsNotDigit);
        match DigitsFrom(s, n)
        case Some(g) => Some(g)
        case None => if d - (i + 1) >= 2 then Some((d - 1, d)) else None
    else None
  }

  /** `(\d+)` */
  function EpisodePatternX(s: string, i: nat): (r: Option<Span>)
    ensures r.Some? ==> DigitSpan(s, r.value) && i == r.value.0
  {
    if i < |s| && IsDigit(s[i]) then DigitsFrom(s, i) else None
  }

  /** `n` is `int()` of some run of digits in `s`. */
  ghost predicate NumberInName(s: string, n: nat) {
    exists g :: DigitSpan(s, g) && GroupValue(s, g) == n
  }

  /** The value of the first pattern's leftmost match, or `None` if it matches nowhere. */
  function FirstGroupValue(s: string, m: (string, nat) -> Option<Span>): (r: Option<nat>)
    requires forall i :: 0 <= i <= |s| && m(s, i).Some? ==> DigitSpan(s, m(s, i).value)
    ensures r.None? <==> Search(s, m).None?
    ensures r.Some? ==> NumberInName(s, r.value)
  {
    match FirstMatchPos(s, 0, m)
    case Some(k) =>
      var g := m(s, k).value;
      assert DigitSpan(s, g) && GroupValue(s, g) == GroupValue(s, g);
      Some(GroupValue(s, g))
    case None => None
  }

  /** `extract_episode_number`: the first of five patterns that matches decides, then any
      number at all, then the sentinel 999. Whatever it returns is read from the name. */
  function ExtractEpisodeNumber(filename: string): (n: nat)
    ensures n == 999 || NumberInName(filename, n)
  {
    var r1 := FirstGroupValue(filename, EpisodePattern1);
    if r1.Some? then r1.value
    else
      var r2 := FirstGroupValue(filename, EpisodePattern2);
      if r2.Some? then r2.value
      else
        var r3 := FirstGroupValue(filename, EpisodePattern3);
        if r3.Some? then r3.value
        else
          var r4 := FirstGroupValue(filename, EpisodePattern3b);
          if r4.Some? then r4.value
          else
            var r5 := FirstGroupValue(filename, EpisodePattern4);
            if r5.Some? then r5.value
            else
              var rx := FirstGroupValue(filename, EpisodePatternX);
              if rx.Some? then rx.value else 999
  }

  /** A pattern that yields a digit group can only match a name that has a digit. */
  lemma MatchNeedsDigit(s: string, m: (string, nat) -> Option<Span>)
    requires forall i :: 0 <= i <= |s| && m(s, i).Some? ==> DigitSpan(s, m(s, i).value)
    ensures Search(s, m).Some? ==> HasDigit(s)
  {
    var p := FirstMatchPos(s, 0, m);
    if p.Some? {
      var g := m(s, p.value).value;
      assert IsDigit(s[g.0]);
    }
  }

  /** A name without digits has no episode number: the result is the sentinel 999. */
  lemma EpisodeWithoutDigitsIs999(filename: string)
    requires !HasDigit(filename)
    ensures ExtractEpisodeNumber(filename) == 999
  {
    MatchNeedsDigit(filename, EpisodePattern1);
    MatchNeedsDigit(filename, EpisodePattern2);
    MatchNeedsDigit(filename, EpisodePattern3);
    MatchNeedsDigit(filename, EpisodePattern3b);
    MatchNeedsDigit(filename, EpisodePattern4);
    MatchNeedsDigit(filename, EpisodePatternX);
  }

  /** `s[a..b]` is a maximal run of digits. */
  predicate MaximalDigitRun(s: string, a: nat, b: nat) {
    a < b <= |s| && (forall j :: a <= j < b ==> IsDigit(s[j])) && (b == |s| || !IsDigit(s[b]))
  }

  /** An `S<n>E<m>` or `S<n>EP<m>` token starts at `j`: a capital `S`, a run of digits, a
      capital `E`, then a digit or a capital `P` and a digit. */
  predicate SeasonEpisodeTokenAt(s: string, j: nat) {
    j < |s| && s[j] == 'S' &&
    var e := RunEnd(s, j + 1, IsDigit);
    j + 1 < e < |s| && s[e] == 'E' &&
    ((e + 1 < |s| && IsDigit(s[e + 1])) || (e + 2 < |s| && s[e + 1] == 'P' && IsDigit(s[e + 2])))
  }

  /** The first token `S<n>E<m>` or `S<n>EP<m>` of the name (`n` at `[k+1, e)`, `m` at
      `[d, f)`) decides: the episode is `m`, whatever follows. */
  lemma EpisodeOfSeasonEpisodeToken(s: string, k: nat, e: nat, d: nat, f: nat)
    requires forall j :: 0 <= j < k ==> !SeasonEpisodeTokenAt(s, j)
    requires k < |s| && s[k] == 'S' && MaximalDigitRun(s, k + 1, e) && e < |s| && s[e] == 'E'
    requires d == e + 1 || (d == e + 2 && e + 1 < |s| && s[e + 1] == 'P')
    requires MaximalDigitRun(s, d, f)
    ensures ExtractEpisodeNumber(s) == DecimalValue(s[d..f])
  {
    SeasonEpisodeTokenMatches(s, k, e, d, f);
    FirstPatternDecides(s);
  }

  lemma SeasonEpisodeTokenMatches(s: string, k: nat, e: nat, d: nat, f: nat)
    requires forall j :: 0 <= j < k ==> !SeasonEpisodeTokenAt(s, j)
    requires k < |s| && s[k] == 'S' && MaximalDigitRun(s, k + 1, e) && e < |s| && s[e] == 'E'
    requires d == e + 1 || (d == e + 2 && e + 1 < |s| && s[e + 1] == 'P')
    requires MaximalDigitRun(s, d, f)
    ensures FirstGroupValue(s, EpisodePattern1) == Some(DecimalValue(s[d..f]))
  {
    Pattern1AtToken(s, k, e, d, f);
    forall j: nat | j < k
      ensures EpisodePattern1(s, j).None?
    {
      Pattern1NeedsToken(s, j);
    }
    SearchFindsFirst(s, EpisodePattern1, k);
  }

  lemma Pattern1AtToken(s: string, k: nat, e: nat, d: nat, f: nat)
    requires k < |s| && s[k] == 'S' && MaximalDigitRun(s, k + 1, e) && e < |s| && s[e] == 'E'
    requires d == e + 1 || (d == e + 2 && e + 1 < |s| && s[e + 1] == 'P')
    requires MaximalDigitRun(s, d, f)
    ensures EpisodePattern1(s, k) == Some((d, f))
  {
    RunEndIs(s, k + 1, IsDigit, e);
    RunEndIs(s, d, IsDigit, f);
    if d == e + 1 {
      assert DigitsFrom(s, e + 1) == Some((d, f));
    } else {
      RunEndIs(s, e + 1, IsDigit, e + 1);
      assert DigitsFrom(s, e + 1).None?;
      assert s[e..e + 2] == "EP";
      assert DigitsFrom(s, e + 2) == Some((d, f));
    }
  }

  /** `pattern1` matches only where a token starts. */
  lemma Pattern1NeedsToken(s: string, j: nat)
    ensures EpisodePattern1(s, j).Some? ==> SeasonEpisodeTokenAt(s, j)
  {
  }

  lemma FirstPatternDecides(s: string)
    requires FirstGroupValue(s, EpisodePattern1).Some?
    ensures ExtractEpisodeNumber(s) == FirstGroupValue(s, EpisodePattern1).value
  {
  }


  // ---------------------------------------------------------------------------------------
  // extract_season_number (all patterns compiled with re.IGNORECASE)
  // ---------------------------------------------------------------------------------------

  predicate IsS(c: char) { c == 'S' || c == 's' }

  /** `S(\d+)(?:E|EP|\s)`: `EP` can only match where `E` already does, so the group must be
      followed by `e`, `E` or whitespace. */
  function SeasonPattern1(s: string, i: nat): (r: Option<Span>)
    ensures r.Some? ==> DigitSpan(s, r.value)
  {
    if i < |s| && IsS(s[i]) then
      var d := RunEnd(s, i + 1, IsDigit);
      if d > i + 1 && d < |s| && (s[d] == 'E' || s[d] == 'e' || IsSpace(s[d])) then Some((i + 1, d)) else None
    else None
  }

  /** `Season\s*(\d+)` */
  function SeasonPattern2(s: string, i: nat): (r: Option<Span>)
    ensures r.Some? ==> DigitSpan(s, r.value)
  {
    if OccursAtCI(s, i, "season") then DigitsFrom(s, RunEnd(s, i + 6, IsSpace)) else None
  }

  /** `S(\d+)` */
  function SeasonPattern3(s: string, i: nat): (r: Option<Span>)
    ensures r.Some? ==> DigitSpan(s, r.value)
  {
    if i < |s| && IsS(s[i]) then DigitsFrom(s, i + 1) else None
  }

  /** `Season(\d+)` */
  function SeasonPattern4(s: string, i: nat): (r: Option<Span>)
    ensures r.Some? ==> DigitSpan(s, r.value)
  {
    if OccursAtCI(s, i, "season") then DigitsFrom(s, i + 6) else None
  }

  /** `\s*Season` at `j` */
  predicate SeasonWordAfter(s: string, j: nat)
    requires j <= |s|
  {
    OccursAtCI(s, RunEnd(s, j, IsSpace), "season")
  }

  /** `(\d+)(?:st|nd|rd|th)?\s*Season` at `j`: the ordinal suffix is tried first, then left out. */
  function OrdinalSeasonFrom(s: string, j: nat): (r: Option<Span>)
    requires j <= |s|
    ensures r.Some? ==> DigitSpan(s, r.value)
  {
    var d := RunEnd(s, j, IsDigit);
    if d == j then None
    else
      var suffixed :=
        (OccursAtCI(s, d, "st") || OccursAtCI(s, d, "nd") || OccursAtCI(s, d, "rd") || OccursAtCI(s, d, "th"))
        && SeasonWordAfter(s, d + 2);
      if suffixed || SeasonWordAfter(s, d) then Some((j, d)) else None
  }

  /** `(?:^|\s)(\d+)(?:st|nd|rd|th)?\s*Season`: the anchor `^` is tried before `\s`. */
  function SeasonPattern5(s: string, i: nat): (r: Option<Span>)
    ensures r.Some? ==> DigitSpan(s, r.value)
  {
    if i > |s| then None
    else if i == 0 && OrdinalSeasonFrom(s, 0).Some? then OrdinalSeasonFrom(s, 0)
    else if i < |s| && IsSpace(s[i]) then OrdinalSeasonFrom(s, i + 1)
    else None
  }

  /** `S\.(\d+)` */
  function SeasonPattern6(s: string, i: nat): (r: Option<Span>)
    ensures r.Some? ==> DigitSpan(s, r.value)
  {
    if i + 1 < |s| && IsS(s[i]) && s[i + 1] == '.' then DigitsFrom(s, i + 2) else None
  }

  /** `season_num if season_num > 0 else 1` */
  function AtLeastOne(v: nat): nat {
    if v > 0 then v else 1
  }

  /** `extract_season_number`: the first of six patterns that matches decides; a parsed 0 and
      "nothing matched" both give 1, so the result is never below 1. */
  function ExtractSeasonNumber(filename: string): (n: nat)
    ensures n >= 1
    ensures n == 1 || NumberInName(filename, n)
  {
    var r1 := FirstGroupValue(filename, SeasonPattern1);
    if r1.Some? then AtLeastOne(r1.value)
    else
      var r2 := FirstGroupValue(filename, SeasonPattern2);
      if r2.Some? then AtLeastOne(r2.value)
      else
        var r3 := FirstGroupValue(filename, SeasonPattern3);
        if r3.Some? then AtLeastOne(r3.value)
        else
          var r4 := FirstGroupValue(filename, SeasonPattern4);
          if r4.Some? then AtLeastOne(r4.value)
          else
            var r5 := FirstGroupValue(filename, SeasonPattern5);
            if r5.Some? then AtLeastOne(r5.value)
            else
              var r6 := FirstGroupValue(filename, SeasonPattern6);
              if r6.Some? then AtLeastOne(r6.value) else 1
  }

  /** A name without digits is season 1. */
  lemma SeasonWithoutDigitsIsOne(filename: string)
    requires !HasDigit(filename)
    ensures ExtractSeasonNumber(filename) == 1
  {
    MatchNeedsDigit(filename, SeasonPattern1);
    MatchNeedsDigit(filename, SeasonPattern2);
    MatchNeedsDigit(filename, SeasonPattern3);
    MatchNeedsDigit(filename, SeasonPattern4);
    MatchNeedsDigit(filename, SeasonPattern5);
    MatchNeedsDigit(filename, SeasonPattern6);
  }

  /** A season token starts at `j`: an `s` or `S`, a run of digits, then `E`, `e` or
      whitespace. */
  predicate SeasonTokenAt(s: string, j: nat) {
    j < |s| && IsS(s[j]) &&
    var e := RunEnd(s, j + 1, IsDigit);
    j + 1 < e < |s| && (s[e] == 'E' || s[e] == 'e' || IsSpace(s[e]))
  }

  /** `pattern1` of the season scanner matches only where a season token starts. */
  lemma SeasonPattern1NeedsToken(s: string, j: nat)
    ensures SeasonPattern1(s, j).Some? ==> SeasonTokenAt(s, j)
  {
  }

  /** The first season token of the name (`n` at `[k+1, e)`) decides: the season is `n`, or 1
      when `n` is zero. */
  lemma SeasonOfSeasonEpisodeToken(s: string, k: nat, e: nat)
    requires forall j :: 0 <= j < k ==> !SeasonTokenAt(s, j)
    requires k < |s| && IsS(s[k]) && MaximalDigitRun(s, k + 1, e)
    requires e < |s| && (s[e] == 'E' || s[e] == 'e' || IsSpace(s[e]))
    ensures ExtractSeasonNumber(s) == AtLeastOne(DecimalValue(s[k + 1..e]))
  {
    RunEndIs(s, k + 1, IsDigit, e);
    assert SeasonPattern1(s, k) == Some((k + 1, e));
    forall j: nat | j < k
      ensures SeasonPattern1(s, j).None?
    {
      SeasonPattern1NeedsToken(s, j);
    }
    SearchFindsFirst(s, SeasonPattern1, k);
    assert FirstMatchPos(s, 0, SeasonPattern1) == Some(k);
  }

  // ---------------------------------------------------------------------------------------
  // extract_quality
  // ---------------------------------------------------------------------------------------

  predicate IsP(c: char) { c == 'p' || c == 'P' }

  /** `[^\dp]` under `re.IGNORECASE` */
  predicate NotDigitNorP(c: char) { !IsDigit(c) && !IsP(c) }

  /** `\d{n}[^\dp]*p` at `k`: the end of the group. A shorter `[^\dp]*` run would leave a
      character that is not `p`, so only the longest run can be followed by `p`. */
  function QualityGroupWith(s: string, k: nat, n: nat): (r: Option<nat>)
    requires k <= |s|
    ensures r.Some? ==> k + n < r.value <= |s| && AllDigits(s[k..k + n]) && IsP(s[r.value - 1])
    ensures r.Some? ==> !IsDigit(s[k + n])
  {
    if k + n <= |s| && AllDigits(s[k..k + n]) then
      var r := RunEnd(s, k + n, NotDigitNorP);
      if r < |s| && IsP(s[r]) then Some(r + 1) else None
    else None
  }

  /** `.*?\b` from `m`: the lazy dot takes one more non-newline character at a time until a word
      boundary is reached. */
  predicate LazyBoundary(s: string, m: nat)
    requires m <= |s|
    decreases |s| - m
  {
    AtWordBoundary(s, m) || (m < |s| && s[m] != '\n' && LazyBoundary(s, m + 1))
  }

  /** A `pattern5` group: three or four digits first (the character after them is not a
      digit) and a 'p' or 'P' last. */
  predicate QualitySpan(s: string, g: Span) {
    g.0 + 3 < g.1 <= |s| && AllDigits(s[g.0..g.0 + 3]) && IsP(s[g.1 - 1])
    && (IsDigit(s[g.0 + 3]) ==> g.0 + 4 < g.1 && !IsDigit(s[g.0 + 4]))
  }

  /** `(\d{3,4}[^\dp]*p).*?\b` at `k`: four digits are tried before three. */
  function QualityAlt1At(s: string, k: nat): (r: Option<nat>)
    requires k <= |s|
    ensures r.Some? ==> QualitySpan(s, (k, r.value))
  {
    var g4 := QualityGroupWith(s, k, 4);
    if g4.Some? && LazyBoundary(s, g4.value) then
      assert s[k..k + 3] == s[k..k + 4][..3];
      g4
    else
      var g3 := QualityGroupWith(s, k, 3);
      if g3.Some? && LazyBoundary(s, g3.value) then g3 else None
  }

  /** `.*?(\d{3,4}[^\dp]*p).*?\b` from `k`: the leading lazy dot never crosses a newline. */
  function QualityLazyAlt1(s: string, k: nat): (r: Option<Span>)
    requires k <= |s|
    ensures r.Some? ==> k <= r.value.0 && QualitySpan(s, r.value)
    decreases |s| - k
  {
    match QualityAlt1At(s, k)
    case Some(e) => Some((k, e))
    case None => if k < |s| && s[k] != '\n' then QualityLazyAlt1(s, k + 1) else None
  }

  /** `(\d{3,4}p)\b` at `k` */
  function QualityAlt2At(s: string, k: nat): (r: Option<nat>)
    requires k <= |s|
    ensures r.Some? ==> QualitySpan(s, (k, r.value))
  {
    if k + 5 <= |s| && AllDigits(s[k..k + 4]) && IsP(s[k + 4]) && AtWordBoundary(s, k + 5) then
      assert s[k..k + 3] == s[k..k + 4][..3];
      Some(k + 5)
    else if k + 4 <= |s| && AllDigits(s[k..k + 3]) && IsP(s[k + 3]) && AtWordBoundary(s, k + 4) then
      Some(k + 4)
    else None
  }

  function QualityLazyAlt2(s: string, k: nat): (r: Option<Span>)
    requires k <= |s|
    ensures r.Some? ==> k <= r.value.0 && QualitySpan(s, r.value)
    decreases |s| - k
  {
    match QualityAlt2At(s, k)
    case Some(e) => Some((k, e))
    case None => if k < |s| && s[k] != '\n' then QualityLazyAlt2(s, k + 1) else None
  }

  /** `pattern5`: `\b(?:.*?(\d{3,4}[^\dp]*p).*?|.*?(\d{3,4}p))\b` with `re.IGNORECASE`,
      yielding whichever group took part in the match. */
  function QualityPattern5(s: string, i: nat): (r: Option<Span>)
    ensures r.Some? ==> i <= r.value.0 && QualitySpan(s, r.value)
  {
    if i <= |s| && AtWordBoundary(s, i) then
      match QualityLazyAlt1(s, i)
      case Some(g) => Some(g)
      case None => QualityLazyAlt2(s, i)
    else None
  }

  /** `[([<{]?\s*TOKEN\s*[)\]>}]?` with `re.IGNORECASE` at `i`: the end of the match. The
      optional opening bracket is tried first, then left out; the trailing part always matches. */
  function BracketedTokenAt(tok: string, s: string, i: nat): (r: Option<nat>)
    ensures r.Some? ==> exists t :: i <= t <= |s| - |tok| && OccursAtCI(s, t, tok)
  {
    if i > |s| then None
    else
      var withBracket := i < |s| && IsOpenBracket(s[i]) && OccursAtCI(s, RunEnd(s, i + 1, IsSpace), tok);
      var t := if withBracket then RunEnd(s, i + 1, IsSpace) else RunEnd(s, i, IsSpace);
      if OccursAtCI(s, t, tok) then
        var w := RunEnd(s, t + |tok|, IsSpace);
        Some(if w < |s| && IsCloseBracket(s[w]) then w + 1 else w)
      else None
  }

  function BracketedToken(tok: string): Matcher {
    (s: string, i: nat) => BracketedTokenAt(tok, s, i)
  }

  /** `pattern8`: `[([<{]?\s*HdRip\s*[)\]>}]?|\bHdRip\b` with `re.IGNORECASE`. */
  function HdRipPattern(s: string, i: nat): Option<nat> {
    var m := BracketedTokenAt("HdRip", s, i);
    if m.Some? then m else WordCI("HdRip")(s, i)
  }

  /** `re.search` of a bracketed-token pattern finds something. */
  predicate MatchesToken(s: string, tok: string) {
    Search(s, BracketedToken(tok)).Some?
  }

  /** What `pattern5` can yield once lower-cased: three or four digits (never five), possibly
      other characters, then a final 'p'. */
  predicate PixelQuality(q: string) {
    |q| >= 4 && AllDigits(q[..3]) && (IsDigit(q[3]) ==> |q| > 4 && !IsDigit(q[4]))
    && q[|q| - 1] == 'p' && NoUppercase(q)
  }

  /** A `pattern5` group in lower case. */
  function LowerGroup(s: string, g: Span): (q: string)
    requires QualitySpan(s, g)
    ensures PixelQuality(q)
  {
    var q := LowerStr(s[g.0..g.1]);
    assert forall j :: 0 <= j < 3 ==> q[j] == s[g.0..g.0 + 3][j];
    q
  }

  /** `pattern5`'s group, lower-cased: three or four digits first and a 'p' last. */
  function Pattern5Quality(filename: string): (r: Option<string>)
    ensures r.None? <==> Search(filename, QualityPattern5).None?
    ensures r.Some? ==> PixelQuality(r.value)
  {
    match FirstMatchPos(filename, 0, QualityPattern5)
    case Some(k) =>
      var g := QualityPattern5(filename, k).value;
      Some(LowerGroup(filename, g))
    case None => None
  }

  /** Patterns 6 to 10 in order, then "Unknown". */
  function FixedQualityLabel(filename: string): string {
    if MatchesToken(filename, "4k") then "4k"
    else if MatchesToken(filename, "2k") then "2k"
    else if Search(filename, HdRipPattern).Some? then "HdRip"
    else if MatchesToken(filename, "4kX264") then "4kX264"
    else if MatchesToken(filename, "4kx265") then "4kx265"
    else "Unknown"
  }

  /** `extract_quality`: `pattern5`'s group in lower case, else the first fixed label whose
      pattern matches, else "Unknown". */
  function ExtractQuality(filename: string): string {
    match Pattern5Quality(filename)
    case Some(q) => q
    case None => FixedQualityLabel(filename)
  }

  /** The bracketed-token patterns match exactly when the token occurs in the name, in any
      letter case: the bracket and the spaces around it are optional. */
  lemma BracketedTokenIffContains(s: string, tok: string)
    requires |tok| > 0 && !IsSpace(tok[0]) && !IsOpenBracket(tok[0])
    ensures MatchesToken(s, tok) <==> ContainsCI(s, tok)
  {
    if ContainsCI(s, tok) {
      var k :| 0 <= k <= |s| - |tok| && OccursAtCI(s, k, tok);
      assert Lower(s[k]) == Lower(tok[0]);
      assert !IsSpace(s[k]);
      RunEndIs(s, k, IsSpace, k);
      assert BracketedToken(tok)(s, k).Some?;
    }
    if MatchesToken(s, tok) {
      var k := FirstMatchPos(s, 0, BracketedToken(tok)).value;
      assert BracketedTokenAt(tok, s, k).Some?;
    }
  }

  lemma HdRipIffContains(s: string)
    ensures Search(s, HdRipPattern).Some? <==> ContainsCI(s, "HdRip")
  {
    BracketedTokenIffContains(s, "HdRip");
    if Search(s, HdRipPattern).Some? {
      var k := FirstMatchPos(s, 0, HdRipPattern).value;
      if BracketedTokenAt("HdRip", s, k).None? {
        assert OccursAtCI(s, k, "HdRip");
      } else {
        assert BracketedToken("HdRip")(s, k).Some?;
      }
    }
    if ContainsCI(s, "HdRip") {
      var k := FirstMatchPos(s, 0, BracketedToken("HdRip")).value;
      assert HdRipPattern(s, k).Some?;
    }
  }

  /** Any name containing "4kX264" or "4kx265" (in any case) also contains "4k". */
  lemma FourKCodecContainsFourK(s: string)
    ensures ContainsCI(s, "4kX264") || ContainsCI(s, "4kx265") ==> ContainsCI(s, "4k")
  {
    if ContainsCI(s, "4kX264") {
      var k :| 0 <= k <= |s| - 6 && OccursAtCI(s, k, "4kX264");
      assert Lower(s[k]) == Lower("4kX264"[0]) && Lower(s[k + 1]) == Lower("4kX264"[1]);
      assert OccursAtCI(s, k, "4k");
    } else if ContainsCI(s, "4kx265") {
      var k :| 0 <= k <= |s| - 6 && OccursAtCI(s, k, "4kx265");
      assert Lower(s[k]) == Lower("4kx265"[0]) && Lower(s[k + 1]) == Lower("4kx265"[1]);
      assert OccursAtCI(s, k, "4k");
    }
  }

  /** Patterns 6 to 10: each fixed label is chosen by a case-insensitive occurrence of its
      token, in order; "4kX264" and "4kx265" can never be chosen, because any name they would
      match also contains "4k", which is tested first. */
  lemma FixedQualityLabelCases(filename: string)
    ensures var q := FixedQualityLabel(filename);
      (q == "4k" <==> ContainsCI(filename, "4k"))
      && (q == "2k" <==> !ContainsCI(filename, "4k") && ContainsCI(filename, "2k"))
      && (q == "HdRip" <==> !ContainsCI(filename, "4k") && !ContainsCI(filename, "2k") && ContainsCI(filename, "HdRip"))
      && (q == "Unknown" <==> !ContainsCI(filename, "4k") && !ContainsCI(filename, "2k") && !ContainsCI(filename, "HdRip"))
      && q != "4kX264" && q != "4kx265"
  {
    BracketedTokenIffContains(filename, "4k");
    BracketedTokenIffContains(filename, "2k");
    BracketedTokenIffContains(filename, "4kX264");
    BracketedTokenIffContains(filename, "4kx265");
    HdRipIffContains(filename);
    FourKCodecContainsFourK(filename);
  }

  /** What `extract_quality` returns: a `pattern5` hit is lower case, starts with three digits
      and ends in 'p'; otherwise a fixed label; "Unknown" exactly when no pattern matches, and
      never "4kX264" or "4kx265". */
  lemma ExtractQualityCases(filename: string)
    ensures var q := ExtractQuality(filename);
      (q == "Unknown" <==>
        Search(filename, QualityPattern5).None? && !ContainsCI(filename, "4k") && !ContainsCI(filename, "2k")
        && !ContainsCI(filename, "HdRip"))
      && (Search(filename, QualityPattern5).Some? ==>
            PixelQuality(q))
      && (Search(filename, QualityPattern5).None? ==> q == FixedQualityLabel(filename))
      && q != "4kX264" && q != "4kx265"
  {
    var r := Pattern5Quality(filename);
    if r.Some? {
      Pattern5QualityIsNoLabel(r.value);
    } else {
      FixedQualityLabelCases(filename);
    }
  }

  /** A `pattern5` quality starts with digits, so it is none of the fixed labels. */
  lemma Pattern5QualityIsNoLabel(q: string)
    requires |q| >= 4 && AllDigits(q[..3])
    ensures q != "Unknown" && q != "4kX264" && q != "4kx265"
  {
    assert IsDigit(q[..3][1]);
  }

  // ---------------------------------------------------------------------------------------
  // detect_quality
  // ---------------------------------------------------------------------------------------

  /** `(480p|720p|1080p)` at `i`, yielding the rank `quality_order` gives the matched text. */
  function QualityRankAt(s: string, i: nat): Option<nat> {
    if OccursAt(s, i, "480p") then Some(1)
    else if OccursAt(s, i, "720p") then Some(2)
    else if OccursAt(s, i, "1080p") then Some(3)
    else None
  }

  /** `detect_quality`: the rank of the leftmost of "480p", "720p" and "1080p" (1, 2, 3), or 4
      when none occurs. */
  function DetectQuality(filename: string): (rank: nat)
    ensures 1 <= rank <= 4
    ensures rank == 4 <==> !Contains(filename, "480p") && !Contains(filename, "720p") && !Contains(filename, "1080p")
    ensures rank == 1 ==> Contains(filename, "480p")
    ensures rank == 2 ==> Contains(filename, "720p")
    ensures rank == 3 ==> Contains(filename, "1080p")
  {
    match FirstMatchPos(filename, 0, QualityRankAt)
    case Some(k) =>
      assert OccursAt(filename, k, "480p") || OccursAt(filename, k, "720p") || OccursAt(filename, k, "1080p");
      QualityRankAt(filename, k).value
    case None =>
      forall j | 0 <= j <= |filename|
        ensures !OccursAt(filename, j, "480p") && !OccursAt(filename, j, "720p") && !OccursAt(filename, j, "1080p")
      {
        assert QualityRankAt(filename, j).None?;
      }
      4
  }
}
