/** Building the new file name from the user's template: the episode, season, quality and audio
    placeholder passes, the `[SSeason-EP…]` block, the clean-up of separators, and the
    extension carried over from the original file name. */
module Rewrite {
  import opened Text
  import opened Regex
  import Extract

  // ---------------------------------------------------------------------------------------
  // str.replace(old, new, 1)
  // ---------------------------------------------------------------------------------------

  /** Python's `s.replace(pat, repl, 1)`: only the leftmost occurrence is replaced. */
  function ReplaceFirst(s: string, pat: string, repl: string): (r: string)
    ensures !Contains(s, pat) ==> r == s
    ensures Contains(s, pat) ==>
      exists k :: 0 <= k <= |s| - |pat| && OccursAt(s, k, pat)
                  && (forall j :: 0 <= j < k ==> !OccursAt(s, j, pat))
                  && r == s[..k] + repl + s[k + |pat|..]
  {
    match FirstMatchPos(s, 0, Lit(pat))
    case Some(k) =>
      assert OccursAt(s, k, pat);
      assert forall j :: 0 <= j < k ==> !OccursAt(s, j, pat) by {
        forall j | 0 <= j < k
          ensures !OccursAt(s, j, pat)
        {
          assert Lit(pat)(s, j).None?;
        }
      }
      s[..k] + repl + s[k + |pat|..]
    case None =>
      assert !Contains(s, pat) by {
        forall k | 0 <= k <= |s| - |pat|
          ensures !OccursAt(s, k, pat)
        {
          assert Lit(pat)(s, k).None?;
        }
      }
      s
  }

  /** The first occurrence decides where `ReplaceFirst` replaces. */
  lemma ReplaceFirstAt(s: string, pat: string, repl: string, k: nat)
    requires OccursAt(s, k, pat) && forall j :: 0 <= j < k ==> !OccursAt(s, j, pat)
    ensures ReplaceFirst(s, pat, repl) == s[..k] + repl + s[k + |pat|..]
  {
    assert Lit(pat)(s, k).Some?;
    assert forall j :: 0 <= j < k ==> Lit(pat)(s, j).None?;
  }

  /** `s.replace(p, repl, 1)` for each `p` of `pats` in turn. */
  function ReplaceEachFirst(s: string, pats: seq<string>, repl: string): string
    decreases |pats|
  {
    if |pats| == 0 then s
    else ReplaceFirst(ReplaceEachFirst(s, pats[..|pats| - 1], repl), pats[|pats| - 1], repl)
  }

  // ---------------------------------------------------------------------------------------
  // Episode and season placeholders
  // ---------------------------------------------------------------------------------------

  const EpisodePlaceholders: seq<string> := ["episode", "Episode", "EPISODE", "{episode}"]
  const SeasonPlaceholders: seq<string> := ["season", "Season", "SEASON", "{season}"]
  const QualityPlaceholders: seq<string> := ["quality", "Quality", "QUALITY", "{quality}"]

  /** An episode number is written into the name unless it is missing (0) or the 999
      sentinel of the episode extractor. */
  predicate EpisodeValid(episode: nat) { episode != 0 && episode != 999 }

  /** A season number is written into the name unless it is missing (0) or 1, which the
      season extractor also returns when it finds nothing. */
  predicate SeasonValid(season: nat) { season != 0 && season != 1 }

  /** Greedy `\s*\d+` at `j`. */
  function SpacesDigitsAt(s: string, j: nat): (r: Option<nat>)
    ensures r.Some? ==> j < r.value <= |s|
  {
    if j > |s| then None
    else
      var w := RunEnd(s, j, IsSpace);
      var d := RunEnd(s, w, IsDigit);
      if d > w then Some(d) else None
  }

  /** `EP(?:ISODE)?\s*\d+` with `re.IGNORECASE`; the optional word is tried first. */
  function EpisodeWordNumberAt(s: string, i: nat): (r: Option<nat>)
    ensures r.Some? ==> i < r.value <= |s|
  {
    if OccursAtCI(s, i, "ep") then
      var withWord := if OccursAtCI(s, i + 2, "isode") then SpacesDigitsAt(s, i + 7) else None;
      if withWord.Some? then withWord else SpacesDigitsAt(s, i + 2)
    else None
  }

  /** `(?:E|EP)\s*(\d+)` with `re.IGNORECASE`; `E` is tried first. */
  function EpisodeMarkNumberAt(s: string, i: nat): (r: Option<nat>)
    ensures r.Some? ==> i < r.value <= |s|
  {
    if i < |s| && (s[i] == 'e' || s[i] == 'E') then
      var short := SpacesDigitsAt(s, i + 1);
      if short.Some? then short
      else if i + 1 < |s| && Extract.IsP(s[i + 1]) then SpacesDigitsAt(s, i + 2)
      else None
    else None
  }

  /** `S(?:EASON)?\s*\d+` with `re.IGNORECASE`; the optional word is tried first. */
  function SeasonWordNumberAt(s: string, i: nat): (r: Option<nat>)
    ensures r.Some? ==> i < r.value <= |s|
  {
    if i < |s| && Extract.IsS(s[i]) then
      var withWord := if OccursAtCI(s, i + 1, "eason") then SpacesDigitsAt(s, i + 6) else None;
      if withWord.Some? then withWord else SpacesDigitsAt(s, i + 1)
    else None
  }

  /** The episode pass: a usable episode number, zero-padded to two digits, replaces the first
      occurrence of each placeholder spelling in turn ("episode" before "{episode}", so a
      `{episode}` placeholder keeps its braces around the number); otherwise the `{episode}`
      placeholder and any "EP 5" / "Episode 5" / "E5" marker are removed. */
  function EpisodePass(t: string, episode: nat): string {
    if EpisodeValid(episode) then ReplaceEachFirst(t, EpisodePlaceholders, ZeroPad2(episode))
    else
      var t1 := Sub(t, LitCI("{episode}"), "");
      var t2 := Sub(t1, EpisodeWordNumberAt, "");
      Sub(t2, EpisodeMarkNumberAt, "")
  }

  /** The season pass, built the same way as the episode pass. */
  function SeasonPass(t: string, season: nat): string {
    if SeasonValid(season) then ReplaceEachFirst(t, SeasonPlaceholders, ZeroPad2(season))
    else
      var t1 := Sub(t, LitCI("{season}"), "");
      Sub(t1, SeasonWordNumberAt, "")
  }

  // ---------------------------------------------------------------------------------------
  // Quality placeholders
  // ---------------------------------------------------------------------------------------

  /** The value written for a `[quality]` placeholder. */
  function BracketedValue(value: string): string {
    if value == "Unknown" then "" else "[" + value + "]"
  }

  /** The value written for a bare quality placeholder. */
  function BareValue(value: string): string {
    if value == "Unknown" then "" else value
  }

  /** A bracketed placeholder `[ph]`, any letter case, is replaced by the bracketed quality. */
  function BracketedQualityStep(t: string, ph: string, quality: string): string {
    var bracketed := LitCI("[" + ph + "]");
    if Search(t, bracketed).Some? then Sub(t, bracketed, BracketedValue(quality)) else t
  }

  /** A bare placeholder `\bph\b`, any letter case, is replaced by the quality. */
  function BareQualityStep(t: string, ph: string, quality: string): string {
    var bare := WordCI(ph);
    if Search(t, bare).Some? then Sub(t, bare, BareValue(quality)) else t
  }

  function QualityStep(t: string, ph: string, quality: string): string {
    BareQualityStep(BracketedQualityStep(t, ph, quality), ph, quality)
  }

  /** `QualityStep` for each placeholder of `phs` in turn. */
  function QualityPassOver(t: string, phs: seq<string>, quality: string): string
    decreases |phs|
  {
    if |phs| == 0 then t
    else QualityStep(QualityPassOver(t, phs[..|phs| - 1], quality), phs[|phs| - 1], quality)
  }

  /** The quality pass: every spelling of the placeholder, bracketed or bare, in any letter
      case, becomes the quality ("Unknown" removes the placeholder). */
  function QualityPass(t: string, quality: string): string {
    QualityPassOver(t, QualityPlaceholders, quality)
  }

  datatype Outcome<T> = Done(value: T) | Raised(error: string)

  /** `re.search(pattern, string, flags)`: Python's `re` refuses a non-zero `flags` argument
      together with a pattern that is already compiled, and raises `ValueError`. */
  function SearchWithFlags(t: string, m: Matcher, compiled: bool, flags: nat): (r: Outcome<bool>)
    ensures r.Raised? <==> compiled && flags != 0
    ensures r.Done? ==> (r.value <==> Search(t, m).Some?)
  {
    if compiled && flags != 0 then Raised("ValueError")
    else Done(Search(t, m).Some?)
  }

  /** The value of `re.IGNORECASE`. */
  const IgnoreCase: nat := 2

  /** One placeholder of the quality pass as it is written, with the `flags` argument that the
      bare form's search passes along with its compiled pattern (`re.IGNORECASE` in the
      source). */
  function QualityStepWithFlags(t: string, ph: string, quality: string, flags: nat): Outcome<string> {
    var t1 := BracketedQualityStep(t, ph, quality);
    var bare := WordCI(ph);
    match SearchWithFlags(t1, bare, true, flags)
    case Raised(e) => Raised(e)
    case Done(found) => Done(if found then Sub(t1, bare, BareValue(quality)) else t1)
  }

  function QualityPassWithFlags(t: string, phs: seq<string>, quality: string, flags: nat): Outcome<string>
    decreases |phs|
  {
    if |phs| == 0 then Done(t)
    else match QualityPassWithFlags(t, phs[..|phs| - 1], quality, flags)
      case Raised(e) => Raised(e)
      case Done(t1) => QualityStepWithFlags(t1, phs[|phs| - 1], quality, flags)
  }

  /** Passing `re.IGNORECASE` (or any flag) along with the compiled pattern makes the pass
      raise as soon as it reaches its first placeholder, whatever the template. */
  lemma {:induction false} QualityPassWithFlagsRaises(t: string, phs: seq<string>, quality: string, flags: nat)
    requires flags != 0 && |phs| > 0
    ensures QualityPassWithFlags(t, phs, quality, flags) == Raised("ValueError")
    decreases |phs|
  {
    if |phs| > 1 {
      QualityPassWithFlagsRaises(t, phs[..|phs| - 1], quality, flags);
    } else {
      assert QualityPassWithFlags(t, phs[..0], quality, flags) == Done(t);
    }
  }

  /** The quality pass as written never finishes: whatever the template and the quality, it
      raises `ValueError`. */
  lemma QualityPassAsWrittenRaises(t: string, quality: string)
    ensures QualityPassWithFlags(t, QualityPlaceholders, quality, IgnoreCase) == Raised("ValueError")
  {
    QualityPassWithFlagsRaises(t, QualityPlaceholders, quality, IgnoreCase);
  }

  /** Without the redundant flags argument (the compiled pattern already ignores case) the
      pass is `QualityPassOver`, the behaviour the rest of this model uses. */
  lemma {:induction false} QualityPassWithoutFlags(t: string, phs: seq<string>, quality: string)
    ensures QualityPassWithFlags(t, phs, quality, 0) == Done(QualityPassOver(t, phs, quality))
    decreases |phs|
  {
    if |phs| > 0 {
      QualityPassWithoutFlags(t, phs[..|phs| - 1], quality);
    }
  }

  // ---------------------------------------------------------------------------------------
  // Audio placeholders
  // ---------------------------------------------------------------------------------------

  /** The value written for an `[audio]` placeholder: the description in brackets, or nothing
      when it is empty or "Unknown". */
  function BracketedAudio(audio: string): string {
    if audio != "" && audio != "Unknown" then "[" + audio + "]" else ""
  }

  /** The audio pass: `[audio]` becomes the bracketed audio description, `{audio}` and the
      bare word become the description, all in any letter case; an empty or "Unknown"
      description removes them. */
  function AudioPass(t: string, audio: string): string {
    var actual := if audio != "" && audio != "Unknown" then audio else "";
    var t1 := Sub(t, LitCI("[audio]"), BracketedAudio(audio));
    var t2 := Sub(t1, LitCI("{audio}"), actual);
    Sub(t2, WordCI("audio"), actual)
  }

  // ---------------------------------------------------------------------------------------
  // [SSeason-EP…] block
  // ---------------------------------------------------------------------------------------

  /** The parts of the `[Snn-EPmm]` block: the usable numbers, zero-padded, season first. */
  function BlockParts(season: nat, episode: nat): (parts: seq<string>)
    ensures |parts| == (if SeasonValid(season) then 1 else 0) + (if EpisodeValid(episode) then 1 else 0)
    ensures SeasonValid(season) ==> parts[0] == "S" + ZeroPad2(season)
    ensures EpisodeValid(episode) ==> parts[|parts| - 1] == "EP" + ZeroPad2(episode)
  {
    (if SeasonValid(season) then ["S" + ZeroPad2(season)] else [])
    + (if EpisodeValid(episode) then ["EP" + ZeroPad2(episode)] else [])
  }

  /** The `[Snn-EPmm]` block: the parts joined by '-', in brackets, or nothing when neither
      number is usable. */
  function SeasonEpisodeBlock(season: nat, episode: nat): (r: string)
    ensures r == "" <==> !SeasonValid(season) && !EpisodeValid(episode)
  {
    var parts := BlockParts(season, episode);
    if |parts| > 0 then "[" + Join("-", parts) + "]" else ""
  }

  lemma BracketJoinOne(p: string, x: string)
    ensures "[" + Join("-", [p + x]) + "]" == "[" + p + x + "]"
  {
  }

  lemma BracketJoinTwo(x: string, y: string)
    ensures "[" + Join("-", ["S" + x, "EP" + y]) + "]" == "[S" + x + "-EP" + y + "]"
  {
    var parts := ["S" + x, "EP" + y];
    assert parts[1..] == ["EP" + y];
  }

  lemma BothNumbersBlock(season: nat, episode: nat)
    requires SeasonValid(season) && EpisodeValid(episode)
    ensures SeasonEpisodeBlock(season, episode) == "[S" + ZeroPad2(season) + "-EP" + ZeroPad2(episode) + "]"
  {
    var x, y := ZeroPad2(season), ZeroPad2(episode);
    assert BlockParts(season, episode) == ["S" + x, "EP" + y];
    BracketJoinTwo(x, y);
  }

  lemma SeasonOnlyBlock(season: nat, episode: nat)
    requires SeasonValid(season) && !EpisodeValid(episode)
    ensures SeasonEpisodeBlock(season, episode) == "[S" + ZeroPad2(season) + "]"
  {
    var x := ZeroPad2(season);
    assert BlockParts(season, episode) == ["S" + x];
    BracketJoinOne("S", x);
  }

  lemma EpisodeOnlyBlock(season: nat, episode: nat)
    requires !SeasonValid(season) && EpisodeValid(episode)
    ensures SeasonEpisodeBlock(season, episode) == "[EP" + ZeroPad2(episode) + "]"
  {
    var y := ZeroPad2(episode);
    assert BlockParts(season, episode) == ["EP" + y];
    BracketJoinOne("EP", y);
  }

  /** The three shapes of the block. */
  lemma SeasonEpisodeBlockShape(season: nat, episode: nat)
    ensures SeasonValid(season) && EpisodeValid(episode) ==>
              SeasonEpisodeBlock(season, episode) == "[S" + ZeroPad2(season) + "-EP" + ZeroPad2(episode) + "]"
    ensures SeasonValid(season) && !EpisodeValid(episode) ==>
              SeasonEpisodeBlock(season, episode) == "[S" + ZeroPad2(season) + "]"
    ensures !SeasonValid(season) && EpisodeValid(episode) ==>
              SeasonEpisodeBlock(season, episode) == "[EP" + ZeroPad2(episode) + "]"
  {
    if SeasonValid(season) && EpisodeValid(episode) {
      BothNumbersBlock(season, episode);
    } else if SeasonValid(season) {
      SeasonOnlyBlock(season, episode);
    } else if EpisodeValid(episode) {
      EpisodeOnlyBlock(season, episode);
    }
  }

  /** `\[EP(?:{episode})?\]` with `re.IGNORECASE`, from the `-EP` or `[EP` already matched. */
  function EpisodeBlockTail(s: string, j: nat): Option<nat> {
    if OccursAtCI(s, j, "{episode}]") then Some(j + 10)
    else if j < |s| && s[j] == ']' then Some(j + 1)
    else None
  }

  /** `\[SSeason\s*-EP(?:{episode})?\]` with `re.IGNORECASE`. */
  function FullBlockAt(s: string, i: nat): (r: Option<nat>)
    ensures r.Some? ==> i < r.value <= |s|
  {
    if OccursAtCI(s, i, "[sseason") then
      var w := RunEnd(s, i + 8, IsSpace);
      if OccursAtCI(s, w, "-ep") then EpisodeBlockTail(s, w + 3) else None
    else None
  }

  /** `\[EP(?:{episode})?\]` with `re.IGNORECASE`. */
  function EpisodeBlockAt(s: string, i: nat): (r: Option<nat>)
    ensures r.Some? ==> i < r.value <= |s|
  {
    if OccursAtCI(s, i, "[ep") then EpisodeBlockTail(s, i + 3) else None
  }

  /** The block pass: `[SSeason-EP]` becomes the whole block, `[SSeason]` and `[EP]` the
      season or episode part alone (or nothing when that number is not usable). */
  function BlockPass(t: string, season: nat, episode: nat): string {
    var t1 := Sub(t, FullBlockAt, SeasonEpisodeBlock(season, episode));
    var t2 := Sub(t1, LitCI("[sseason]"), if SeasonValid(season) then "[S" + ZeroPad2(season) + "]" else "");
    Sub(t2, EpisodeBlockAt, if EpisodeValid(episode) then "[EP" + ZeroPad2(episode) + "]" else "")
  }


  /** A filled block opens with '[' and has no other '[' in it; it goes on with `S` and a
      digit, or with `EP` and a digit. */
  lemma BlockFacts(season: nat, episode: nat)
    requires SeasonValid(season) || EpisodeValid(episode)
    ensures var blk := SeasonEpisodeBlock(season, episode);
      |blk| >= 5 && blk[0] == '[' && (forall j :: 1 <= j < |blk| ==> blk[j] != '[')
      && ((blk[1] == 'S' && IsDigit(blk[2])) || (blk[1] == 'E' && blk[2] == 'P' && IsDigit(blk[3])))
  {
    SeasonEpisodeBlockShape(season, episode);
    var x, y := ZeroPad2(season), ZeroPad2(episode);
    var inner :=
      if SeasonValid(season) && EpisodeValid(episode) then "S" + x + "-EP" + y + "]"
      else if SeasonValid(season) then "S" + x + "]"
      else "EP" + y + "]";
    if SeasonValid(season) && EpisodeValid(episode) {
      BothInner(x, y);
    } else if SeasonValid(season) {
      SeasonInner(x);
    } else {
      EpisodeInner(y);
    }
    BracketedInner(SeasonEpisodeBlock(season, episode), inner);
  }

  lemma BracketedInner(blk: string, inner: string)
    requires blk == "[" + inner && NoOpenBracket(inner) && |inner| >= 4
    requires (inner[0] == 'S' && IsDigit(inner[1])) || (inner[0] == 'E' && inner[1] == 'P' && IsDigit(inner[2]))
    ensures |blk| >= 5 && blk[0] == '[' && (forall j :: 1 <= j < |blk| ==> blk[j] != '[')
    ensures (blk[1] == 'S' && IsDigit(blk[2])) || (blk[1] == 'E' && blk[2] == 'P' && IsDigit(blk[3]))
  {
    assert forall j :: 1 <= j < |blk| ==> blk[j] == inner[j - 1];
  }

  lemma BothInner(x: string, y: string)
    requires |x| >= 2 && AllDigits(x) && AllDigits(y)
    ensures var inner := "S" + x + "-EP" + y + "]";
      NoOpenBracket(inner) && |inner| >= 4 && inner[0] == 'S' && IsDigit(inner[1])
  {
    NoOpenBracketDigits(x);
    NoOpenBracketDigits(y);
    NoOpenBracketConcat("S", x);
    NoOpenBracketConcat("S" + x, "-EP");
    NoOpenBracketConcat("S" + x + "-EP", y);
    NoOpenBracketConcat("S" + x + "-EP" + y, "]");
    assert ("S" + x + "-EP" + y + "]")[1] == x[0];
  }

  lemma SeasonInner(x: string)
    requires |x| >= 2 && AllDigits(x)
    ensures var inner := "S" + x + "]";
      NoOpenBracket(inner) && |inner| >= 4 && inner[0] == 'S' && IsDigit(inner[1])
  {
    NoOpenBracketDigits(x);
    NoOpenBracketConcat("S", x);
    NoOpenBracketConcat("S" + x, "]");
    assert ("S" + x + "]")[1] == x[0];
  }

  lemma EpisodeInner(y: string)
    requires |y| >= 2 && AllDigits(y)
    ensures var inner := "EP" + y + "]";
      NoOpenBracket(inner) && |inner| >= 4 && inner[0] == 'E' && inner[1] == 'P' && IsDigit(inner[2])
  {
    NoOpenBracketDigits(y);
    NoOpenBracketConcat("EP", y);
    NoOpenBracketConcat("EP" + y, "]");
    assert ("EP" + y + "]")[2] == y[0];
  }

  predicate NoOpenBracket(s: string) {
    forall j :: 0 <= j < |s| ==> s[j] != '['
  }

  lemma NoOpenBracketDigits(d: string)
    requires AllDigits(d)
    ensures NoOpenBracket(d)
  {
  }

  lemma NoOpenBracketConcat(x: string, y: string)
    requires NoOpenBracket(x) && NoOpenBracket(y)
    ensures NoOpenBracket(x + y)
  {
    forall j | 0 <= j < |x + y|
      ensures (x + y)[j] != '['
    {
      if j < |x| {
        assert (x + y)[j] == x[j];
      } else {
        assert (x + y)[j] == y[j - |x|];
      }
    }
  }

  /** `[SSeason-EP]` matches the full-block pattern, up to its closing bracket. */
  lemma FullBlockAtPlaceholder(a: string, b: string)
    ensures FullBlockAt(a + "[SSeason-EP]" + b, |a|) == Some(|a| + 12)
  {
    var t := a + "[SSeason-EP]" + b;
    assert forall j :: 0 <= j < 12 ==> t[|a| + j] == "[SSeason-EP]"[j];
    assert OccursAtCI(t, |a|, "[sseason");
    RunEndIs(t, |a| + 8, IsSpace, |a| + 8);
    assert OccursAtCI(t, |a| + 8, "-ep");
    assert !OccursAtCI(t, |a| + 11, "{episode}]") by {
      CharOfOccurrence(t, |a| + 11, "{episode}]", |a| + 11);
    }
  }

  /** After the full block is written, the `[SSeason]` placeholder matches nowhere, when `a`
      and `b` hold no `[SSeason` opening. */
  lemma NoSeasonPlaceholderLeft(a: string, b: string, season: nat, episode: nat, k: nat)
    requires SeasonValid(season) || EpisodeValid(episode)
    requires !ContainsCI(a, "[sseason") && !ContainsCI(b, "[sseason")
    ensures LitCI("[sseason]")(a + SeasonEpisodeBlock(season, episode) + b, k).None?
  {
    var blk := SeasonEpisodeBlock(season, episode);
    var t := a + blk + b;
    BlockFacts(season, episode);
    BracketedLiteralAround(a, blk, b, "[sseason", k);
    OccursAtCIPrefix(t, k, "[sseason]", 8);
    assert "[sseason]"[..8] == "[sseason";
    CharOfOccurrence(t, k, "[sseason]", |a| + 1);
    CharOfOccurrence(t, k, "[sseason]", |a| + 2);
    CharOfMiddle(a, blk, b, |a| + 1);
    CharOfMiddle(a, blk, b, |a| + 2);
  }

  /** After the full block is written, the `[EP]` placeholder matches nowhere, when `a` and
      `b` hold no `[EP` opening. */
  lemma NoEpisodePlaceholderLeft(a: string, b: string, season: nat, episode: nat, k: nat)
    requires SeasonValid(season) || EpisodeValid(episode)
    requires !ContainsCI(a, "[ep") && !ContainsCI(b, "[ep")
    ensures EpisodeBlockAt(a + SeasonEpisodeBlock(season, episode) + b, k).None?
  {
    var blk := SeasonEpisodeBlock(season, episode);
    var t := a + blk + b;
    BlockFacts(season, episode);
    BracketedLiteralAround(a, blk, b, "[ep", k);
    CharOfOccurrence(t, k, "[ep", |a| + 1);
    CharOfOccurrence(t, |a| + 3, "{episode}]", |a| + 3);
    CharOfMiddle(a, blk, b, |a| + 1);
    CharOfMiddle(a, blk, b, |a| + 2);
    CharOfMiddle(a, blk, b, |a| + 3);
  }

  /** The first step of the block pass writes `blk` over the one `[SSeason-EP]` placeholder. */
  lemma FullBlockStepFills(a: string, b: string, blk: string)
    requires !ContainsCI(a, "[sseason") && !ContainsCI(b, "[sseason")
    ensures Sub(a + "[SSeason-EP]" + b, FullBlockAt, blk) == a + blk + b
  {
    var ph := "[SSeason-EP]";
    var t := a + ph + b;
    FullBlockAtPlaceholder(a, b);
    forall k | 0 <= k < |t| && (k < |a| || |a| + 12 <= k)
      ensures FullBlockAt(t, k).None?
    {
      BracketedLiteralAround(a, ph, b, "[sseason", k);
    }
    SubSingleMatch(t, FullBlockAt, blk, |a|, |a| + 12);
    assert t[..|a|] == a && t[|a| + 12..] == b;
  }

  /** With a usable number, a `[SSeason-EP]` placeholder becomes the filled block, wherever it
      stands, when the text around it holds no `[SSeason` or `[EP` opening of its own. */
  lemma BlockFillsPlaceholder(a: string, b: string, season: nat, episode: nat)
    requires SeasonValid(season) || EpisodeValid(episode)
    requires !ContainsCI(a, "[sseason") && !ContainsCI(b, "[sseason")
    requires !ContainsCI(a, "[ep") && !ContainsCI(b, "[ep")
    ensures BlockPass(a + "[SSeason-EP]" + b, season, episode) == a + SeasonEpisodeBlock(season, episode) + b
  {
    var blk := SeasonEpisodeBlock(season, episode);
    var t1 := a + blk + b;
    FullBlockStepFills(a, b, blk);
    forall k | 0 <= k < |t1|
      ensures LitCI("[sseason]")(t1, k).None?
    {
      NoSeasonPlaceholderLeft(a, b, season, episode, k);
    }
    SubNoMatch(t1, LitCI("[sseason]"), if SeasonValid(season) then "[S" + ZeroPad2(season) + "]" else "");
    forall k | 0 <= k < |t1|
      ensures EpisodeBlockAt(t1, k).None?
    {
      NoEpisodePlaceholderLeft(a, b, season, episode, k);
    }
    SubNoMatch(t1, EpisodeBlockAt, if EpisodeValid(episode) then "[EP" + ZeroPad2(episode) + "]" else "");
  }


  // ---------------------------------------------------------------------------------------
  // What the passes do
  // ---------------------------------------------------------------------------------------

  lemma DigitsHaveNoLetters(d: string)
    requires AllDigits(d)
    ensures NoLetters(d)
  {
  }

  /** Before an opening brace, a word made of letters occurs only where it occurs in `a`. */
  lemma NoWordBeforeBrace(a: string, rest: string, w: string, j: nat)
    requires |w| > 0 && forall i :: 0 <= i < |w| ==> IsAsciiLetter(w[i])
    requires !ContainsCI(a, w) && j <= |a|
    ensures !OccursAt(a + "{" + rest, j, w)
  {
    OccursAtIsCI(a + "{" + rest, j, w);
    LetterWordInParts(a, "{", rest, w, j);
  }

  /** The bare word `w` is found first inside the braces of `a + "{w}" + b` when `a` does not
      hold it in any letter case, so its replacement leaves the braces in place. */
  lemma BareWordFirstInBraces(a: string, w: string, b: string, v: string)
    requires |w| > 0 && forall j :: 0 <= j < |w| ==> IsAsciiLetter(w[j])
    requires !ContainsCI(a, w)
    ensures ReplaceFirst(a + "{" + w + "}" + b, w, v) == a + "{" + v + "}" + b
  {
    var rest := w + "}" + b;
    var t := a + "{" + rest;
    assert OccursAt(t, |a| + 1, w) by {
      assert t[|a| + 1..|a| + 1 + |w|] == w;
    }
    forall j | 0 <= j < |a| + 1
      ensures !OccursAt(t, j, w)
    {
      NoWordBeforeBrace(a, rest, w, j);
    }
    ReplaceFirstAt(t, w, v, |a| + 1);
    SpliceInBraces(a, w, b, v);
  }

  lemma SpliceInBraces(a: string, w: string, b: string, v: string)
    ensures var t := a + "{" + (w + "}" + b);
      t == a + "{" + w + "}" + b && t[..|a| + 1] + v + t[|a| + 1 + |w|..] == a + "{" + v + "}" + b
  {
    var t := a + "{" + (w + "}" + b);
    assert t[..|a| + 1] == a + "{";
    assert t[|a| + 1 + |w|..] == "}" + b;
  }

  /** A letterless value between braces adds no occurrence of a word made of letters. */
  lemma WordAbsentAroundBraces(a: string, v: string, b: string, w: string)
    requires |w| > 0 && forall j :: 0 <= j < |w| ==> IsAsciiLetter(w[j])
    requires NoLetters(v) && !ContainsCI(a, w) && !ContainsCI(b, w)
    ensures !ContainsCI(a + "{" + v + "}" + b, w)
  {
    var mid := "{" + v + "}";
    assert a + "{" + v + "}" + b == a + mid + b;
    assert NoLetters(mid);
    forall k | 0 <= k <= |a + mid + b| - |w|
      ensures !OccursAtCI(a + mid + b, k, w)
    {
      LetterWordInParts(a, mid, b, w, k);
    }
  }

  /** A spelling `u` that holds `w` at offset `off`, up to letter case, is absent wherever `w`
      is. */
  lemma SpellingAbsent(r: string, w: string, u: string, off: nat)
    requires !ContainsCI(r, w)
    requires off + |w| <= |u| && forall j :: 0 <= j < |w| ==> Lower(u[off + j]) == Lower(w[j])
    ensures !Contains(r, u)
  {
    forall k | 0 <= k <= |r| - |u|
      ensures !OccursAt(r, k, u)
    {
      OccursAtIsCI(r, k, u);
      if OccursAtCI(r, k, u) {
        InnerOccurrence(r, k, u, off, w);
      }
    }
  }

  /** With the bare word replaced first, a braced placeholder `{w}` becomes `{v}` and none of
      the later spellings is found afterwards. */
  lemma {:induction false} BraceFilled(a: string, b: string, w: string, phs: seq<string>, v: string)
    requires |phs| == 4 && phs[0] == w && phs[3] == "{" + w + "}"
    requires SameLetters(phs[1], w) && SameLetters(phs[2], w)
    requires |w| > 0 && forall j :: 0 <= j < |w| ==> IsAsciiLetter(w[j])
    requires NoLetters(v) && !ContainsCI(a, w) && !ContainsCI(b, w)
    ensures ReplaceEachFirst(a + "{" + w + "}" + b, phs, v) == a + "{" + v + "}" + b
  {
    var t := a + "{" + w + "}" + b;
    var r := a + "{" + v + "}" + b;
    BareWordFirstInBraces(a, w, b, v);
    WordAbsentAroundBraces(a, v, b, w);
    LaterSpellingsAbsent(r, w, phs);
    forall i | 1 <= i < |phs|
      ensures !Contains(ReplaceFirst(t, phs[0], v), phs[i])
    {
      assert i == 1 || i == 2 || i == 3;
    }
    ReplaceEachFirstIsFirst(t, phs, v);
  }

  /** Where the word is absent in any letter case, so are its other spellings and its braced
      form. */
  lemma LaterSpellingsAbsent(r: string, w: string, phs: seq<string>)
    requires |phs| == 4 && phs[3] == "{" + w + "}"
    requires SameLetters(phs[1], w) && SameLetters(phs[2], w)
    requires !ContainsCI(r, w)
    ensures !Contains(r, phs[1]) && !Contains(r, phs[2]) && !Contains(r, phs[3])
  {
    SameSpellingAbsent(r, w, phs[1]);
    SameSpellingAbsent(r, w, phs[2]);
    BracedAbsent(r, w, phs[3]);
  }

  lemma SameSpellingAbsent(r: string, w: string, u: string)
    requires SameLetters(u, w) && !ContainsCI(r, w)
    ensures !Contains(r, u)
  {
    SpellingAbsent(r, w, u, 0);
  }

  lemma BracedAbsent(r: string, w: string, u: string)
    requires u == "{" + w + "}" && !ContainsCI(r, w)
    ensures !Contains(r, u)
  {
    assert u[1..1 + |w|] == w;
    forall j | 0 <= j < |w|
      ensures Lower(u[1 + j]) == Lower(w[j])
    {
      assert u[1 + j] == u[1..1 + |w|][j];
    }
    SpellingAbsent(r, w, u, 1);
  }

  /** Once the first replacement leaves none of the later patterns, the later replacements
      change nothing. */
  lemma {:induction false} ReplaceEachFirstIsFirst(t: string, pats: seq<string>, v: string)
    requires |pats| > 0
    requires forall i :: 1 <= i < |pats| ==> !Contains(ReplaceFirst(t, pats[0], v), pats[i])
    ensures ReplaceEachFirst(t, pats, v) == ReplaceFirst(t, pats[0], v)
    decreases |pats|
  {
    var n := |pats|;
    var r := ReplaceFirst(t, pats[0], v);
    if n == 1 {
      assert pats[..0] == [];
      assert ReplaceEachFirst(t, pats[..0], v) == t;
    } else {
      var init := pats[..n - 1];
      assert init[0] == pats[0];
      forall i | 1 <= i < |init|
        ensures !Contains(r, init[i])
      {
        assert init[i] == pats[i];
      }
      ReplaceEachFirstIsFirst(t, init, v);
      assert !Contains(r, pats[n - 1]);
      assert ReplaceEachFirst(t, pats, v) == ReplaceFirst(r, pats[n - 1], v);
    }
  }

  /** A `{episode}` placeholder keeps its braces: the bare spelling is replaced first and takes
      the word out from between them. This holds for any template with one `{episode}` and no
      other spelling of the word around it. */
  lemma EpisodeBraceKept(a: string, b: string, episode: nat)
    requires EpisodeValid(episode)
    requires !ContainsCI(a, "episode") && !ContainsCI(b, "episode")
    ensures EpisodePass(a + "{episode}" + b, episode) == a + "{" + ZeroPad2(episode) + "}" + b
  {
    DigitsHaveNoLetters(ZeroPad2(episode));
    assert a + "{episode}" + b == a + "{" + "episode" + "}" + b;
    BraceFilled(a, b, "episode", EpisodePlaceholders, ZeroPad2(episode));
  }

  /** A `{season}` placeholder keeps its braces, in the same way. */
  lemma SeasonBraceKept(a: string, b: string, season: nat)
    requires SeasonValid(season)
    requires !ContainsCI(a, "season") && !ContainsCI(b, "season")
    ensures SeasonPass(a + "{season}" + b, season) == a + "{" + ZeroPad2(season) + "}" + b
  {
    DigitsHaveNoLetters(ZeroPad2(season));
    assert a + "{season}" + b == a + "{" + "season" + "}" + b;
    BraceFilled(a, b, "season", SeasonPlaceholders, ZeroPad2(season));
  }

  /** Without a usable episode number the episode pass only removes characters. */
  lemma InvalidEpisodeOnlyDeletes(t: string, episode: nat)
    requires !EpisodeValid(episode)
    ensures Deletes(EpisodePass(t, episode), t)
  {
    var t1 := Sub(t, LitCI("{episode}"), "");
    var t2 := Sub(t1, EpisodeWordNumberAt, "");
    SubDeletes(t, LitCI("{episode}"));
    SubDeletes(t1, EpisodeWordNumberAt);
    SubDeletes(t2, EpisodeMarkNumberAt);
    DeletesTrans(t2, t1, t);
    DeletesTrans(Sub(t2, EpisodeMarkNumberAt, ""), t2, t);
  }

  /** Without a usable season number the season pass only removes characters. */
  lemma InvalidSeasonOnlyDeletes(t: string, season: nat)
    requires !SeasonValid(season)
    ensures Deletes(SeasonPass(t, season), t)
  {
    var t1 := Sub(t, LitCI("{season}"), "");
    SubDeletes(t, LitCI("{season}"));
    SubDeletes(t1, SeasonWordNumberAt);
    DeletesTrans(Sub(t1, SeasonWordNumberAt, ""), t1, t);
  }

  /** An "Unknown" quality only removes characters. */
  lemma {:induction false} UnknownQualityOnlyDeletes(t: string, phs: seq<string>)
    ensures Deletes(QualityPassOver(t, phs, "Unknown"), t)
    decreases |phs|
  {
    if |phs| == 0 {
      DeletesRefl(t);
    } else {
      var ph := phs[|phs| - 1];
      var t0 := QualityPassOver(t, phs[..|phs| - 1], "Unknown");
      UnknownQualityOnlyDeletes(t, phs[..|phs| - 1]);
      var t1 := BracketedQualityStep(t0, ph, "Unknown");
      if Search(t0, LitCI("[" + ph + "]")).Some? {
        SubDeletes(t0, LitCI("[" + ph + "]"));
      } else {
        DeletesRefl(t0);
      }
      DeletesTrans(t1, t0, t);
      if Search(t1, WordCI(ph)).Some? {
        SubDeletes(t1, WordCI(ph));
      } else {
        DeletesRefl(t1);
      }
      DeletesTrans(BareQualityStep(t1, ph, "Unknown"), t1, t);
    }
  }

  /** A missing or "Unknown" audio description only removes characters. */
  lemma UnknownAudioOnlyDeletes(t: string, audio: string)
    requires audio == "" || audio == "Unknown"
    ensures Deletes(AudioPass(t, audio), t)
  {
    var t1 := Sub(t, LitCI("[audio]"), "");
    var t2 := Sub(t1, LitCI("{audio}"), "");
    SubDeletes(t, LitCI("[audio]"));
    SubDeletes(t1, LitCI("{audio}"));
    SubDeletes(t2, WordCI("audio"));
    DeletesTrans(t2, t1, t);
    DeletesTrans(Sub(t2, WordCI("audio"), ""), t2, t);
  }

  /** With neither number usable the block pass only removes characters. */
  lemma NoNumbersBlockOnlyDeletes(t: string, season: nat, episode: nat)
    requires !SeasonValid(season) && !EpisodeValid(episode)
    ensures Deletes(BlockPass(t, season, episode), t)
  {
    var t1 := Sub(t, FullBlockAt, "");
    var t2 := Sub(t1, LitCI("[sseason]"), "");
    SubDeletes(t, FullBlockAt);
    SubDeletes(t1, LitCI("[sseason]"));
    SubDeletes(t2, EpisodeBlockAt);
    DeletesTrans(t2, t1, t);
    DeletesTrans(Sub(t2, EpisodeBlockAt, ""), t2, t);
  }

  /** `w` occurs, ignoring case, inside `lit` at offset `off`: wherever `lit` occurs, so
      does `w`. */
  lemma InnerOccurrence(s: string, k: nat, lit: string, off: nat, w: string)
    requires OccursAtCI(s, k, lit) && off + |w| <= |lit|
    requires forall j :: 0 <= j < |w| ==> Lower(lit[off + j]) == Lower(w[j])
    ensures OccursAtCI(s, k + off, w) && ContainsCI(s, w)
  {
    assert OccursAtCI(s, k + off, w) by {
      forall j | 0 <= j < |w|
        ensures Lower(s[k + off + j]) == Lower(w[j])
      {
        assert Lower(s[k + (off + j)]) == Lower(lit[off + j]);
      }
    }
  }

  /** Where the word "quality" does not occur in any letter case, no quality placeholder
      matches. */
  lemma QualityPlaceholderAbsent(t: string, ph: string, k: nat)
    requires ph in QualityPlaceholders && !ContainsCI(t, "quality")
    ensures LitCI("[" + ph + "]")(t, k).None? && WordCI(ph)(t, k).None?
  {
    var off := if ph == "{quality}" then 1 else 0;
    var lit := "[" + ph + "]";
    if OccursAtCI(t, k, lit) {
      InnerOccurrence(t, k, lit, off + 1, "quality");
    }
    if OccursAtCI(t, k, ph) {
      InnerOccurrence(t, k, ph, off, "quality");
    }
  }

  /** Where the word "quality" does not occur in any letter case, the quality pass leaves the
      template as it is. */
  lemma {:induction false} QualityPassWithoutPlaceholder(t: string, phs: seq<string>, quality: string)
    requires forall ph :: ph in phs ==> ph in QualityPlaceholders
    requires !ContainsCI(t, "quality")
    ensures QualityPassOver(t, phs, quality) == t
    decreases |phs|
  {
    if |phs| > 0 {
      var ph := phs[|phs| - 1];
      QualityPassWithoutPlaceholder(t, phs[..|phs| - 1], quality);
      forall k | 0 <= k <= |t|
        ensures LitCI("[" + ph + "]")(t, k).None? && WordCI(ph)(t, k).None?
      {
        QualityPlaceholderAbsent(t, ph, k);
      }
    }
  }

  /** Where the word "audio" does not occur in any letter case, the audio pass leaves the
      template as it is. */
  lemma AudioPassWithoutPlaceholder(t: string, audio: string)
    requires !ContainsCI(t, "audio")
    ensures AudioPass(t, audio) == t
  {
    var actual := if audio != "" && audio != "Unknown" then audio else "";
    forall k | 0 <= k < |t|
      ensures LitCI("[audio]")(t, k).None? && LitCI("{audio}")(t, k).None? && WordCI("audio")(t, k).None?
    {
      if OccursAtCI(t, k, "[audio]") { InnerOccurrence(t, k, "[audio]", 1, "audio"); }
      if OccursAtCI(t, k, "{audio}") { InnerOccurrence(t, k, "{audio}", 1, "audio"); }
    }
    SubFromNoMatch(t, 0, LitCI("[audio]"), BracketedAudio(audio));
    SubFromNoMatch(t, 0, LitCI("{audio}"), actual);
    SubFromNoMatch(t, 0, WordCI("audio"), actual);
  }

  /** An occurrence of a literal holding the word `w` after its first character, starting
      before an opening bracket, is an occurrence of `w` before the bracket. */
  lemma PlaceholderOccurrenceBefore(a: string, rest: string, lit: string, w: string, k: nat)
    requires |w| > 0 && forall j :: 0 <= j < |w| ==> IsAsciiLetter(w[j])
    requires 1 + |w| <= |lit| && forall j :: 0 <= j < |w| ==> Lower(lit[1 + j]) == Lower(w[j])
    ensures OccursAtCI(a + "[" + rest, k, lit) && k < |a| ==> OccursAtCI(a, k + 1, w)
  {
    if OccursAtCI(a + "[" + rest, k, lit) && k < |a| {
      InnerOccurrence(a + "[" + rest, k, lit, 1, w);
      LetterWordInParts(a, "[", rest, w, k + 1);
    }
  }

  /** An occurrence of `lit` in `x + b` that starts after `x` is one in `b`, and so is `w`
      when `lit` holds it. */
  lemma PlaceholderOccurrenceAfter(x: string, b: string, lit: string, w: string, k: nat)
    requires 1 + |w| <= |lit| && forall j :: 0 <= j < |w| ==> Lower(lit[1 + j]) == Lower(w[j])
    ensures OccursAtCI(x + b, k, lit) && |x| <= k ==> OccursAtCI(b, k - |x| + 1, w)
  {
    if OccursAtCI(x + b, k, lit) && |x| <= k {
      OccursInRight(x, b, k, lit);
      InnerOccurrence(b, k - |x|, lit, 1, w);
    }
  }

  /** In `a + "[w]" + b`, with `w` in neither `a` nor `b` in any letter case, the placeholder is
      the only match of `[w]`, so the substitution replaces it alone. */
  lemma BracketedPlaceholderSub(a: string, w: string, b: string, repl: string)
    requires |w| > 0 && forall j :: 0 <= j < |w| ==> IsAsciiLetter(w[j])
    requires !ContainsCI(a, w) && !ContainsCI(b, w)
    ensures LitCI("[" + w + "]")(a + "[" + w + "]" + b, |a|).Some?
    ensures Sub(a + "[" + w + "]" + b, LitCI("[" + w + "]"), repl) == a + repl + b
  {
    var lit := "[" + w + "]";
    var t := a + "[" + w + "]" + b;
    assert t == a + lit + b;
    assert OccursAtCI(t, |a|, lit) by {
      forall j | 0 <= j < |lit|
        ensures Lower(t[|a| + j]) == Lower(lit[j])
      {
        assert t[|a| + j] == lit[j];
      }
    }
    assert t == a + "[" + (w + "]" + b);
    forall k | 0 <= k < |a|
      ensures LitCI(lit)(t, k).None?
    {
      PlaceholderOccurrenceBefore(a, w + "]" + b, lit, w, k);
    }
    forall k | |a| + |lit| <= k < |t|
      ensures LitCI(lit)(t, k).None?
    {
      PlaceholderOccurrenceAfter(a + lit, b, lit, w, k);
    }
    SubSingleMatch(t, LitCI(lit), repl, |a|, |a| + |lit|);
    assert t[..|a|] == a && t[|a| + |lit|..] == b;
  }

  /** The quality fills a `[quality]` placeholder, brackets and all, and "Unknown" removes it
      with its brackets, wherever it stands in the template, provided no other spelling of
      the word is left around it. */
  lemma QualityFillsPlaceholder(a: string, b: string, quality: string)
    requires !ContainsCI(a + BracketedValue(quality) + b, "quality")
    ensures QualityPass(a + "[quality]" + b, quality) == a + BracketedValue(quality) + b
  {
    var t := a + "[quality]" + b;
    var v := BracketedValue(quality);
    var r := a + v + b;
    ContainsCIInfix("", a, v + b, "quality");
    assert "" + a + (v + b) == r;
    ContainsCIInfix(a + v, b, "", "quality");
    assert a + v + b + "" == r;
    assert t == a + "[" + "quality" + "]" + b;
    BracketedPlaceholderSub(a, "quality", b, v);
    assert BracketedQualityStep(t, "quality", quality) == r;
    forall k | 0 <= k <= |r|
      ensures WordCI("quality")(r, k).None?
    {
      QualityPlaceholderAbsent(r, "quality", k);
    }
    assert QualityStep(t, "quality", quality) == r;
    QualityPassIsFirstStep(t, QualityPlaceholders, quality);
  }

  /** The description fills an `[audio]` placeholder, brackets and all, and an empty or
      "Unknown" one removes it with its brackets, provided no other spelling of the word is
      left around it. */
  lemma AudioFillsPlaceholder(a: string, b: string, audio: string)
    requires !ContainsCI(a + BracketedAudio(audio) + b, "audio")
    ensures AudioPass(a + "[audio]" + b, audio) == a + BracketedAudio(audio) + b
  {
    var t := a + "[audio]" + b;
    var v := BracketedAudio(audio);
    var r := a + v + b;
    ContainsCIInfix("", a, v + b, "audio");
    assert "" + a + (v + b) == r;
    ContainsCIInfix(a + v, b, "", "audio");
    assert a + v + b + "" == r;
    assert t == a + "[" + "audio" + "]" + b;
    BracketedPlaceholderSub(a, "audio", b, v);
    assert "[" + "audio" + "]" == "[audio]";
    LaterAudioStepsKeep(r, if audio != "" && audio != "Unknown" then audio else "");
  }

  /** Where the word "audio" does not occur in any letter case, the `{audio}` and bare steps
      of the audio pass change nothing. */
  lemma LaterAudioStepsKeep(r: string, actual: string)
    requires !ContainsCI(r, "audio")
    ensures Sub(Sub(r, LitCI("{audio}"), actual), WordCI("audio"), actual) == r
  {
    forall k | 0 <= k < |r|
      ensures LitCI("{audio}")(r, k).None? && WordCI("audio")(r, k).None?
    {
      if OccursAtCI(r, k, "{audio}") { InnerOccurrence(r, k, "{audio}", 1, "audio"); }
    }
    SubNoMatch(r, LitCI("{audio}"), actual);
    SubNoMatch(r, WordCI("audio"), actual);
  }

  /** Once no spelling of "quality" is left, the later placeholders change nothing: the pass
      is its first step. */
  lemma {:induction false} QualityPassIsFirstStep(t: string, phs: seq<string>, quality: string)
    requires |phs| > 0 && forall ph :: ph in phs ==> ph in QualityPlaceholders
    requires !ContainsCI(QualityStep(t, phs[0], quality), "quality")
    ensures QualityPassOver(t, phs, quality) == QualityStep(t, phs[0], quality)
    decreases |phs|
  {
    var n := |phs|;
    if n > 1 {
      var r := QualityStep(t, phs[0], quality);
      assert phs[..n - 1][0] == phs[0];
      QualityPassIsFirstStep(t, phs[..n - 1], quality);
      QualityPassWithoutPlaceholder(r, [phs[n - 1]], quality);
      assert QualityPassOver(r, [phs[n - 1]], quality) == QualityStep(r, phs[n - 1], quality) by {
        assert [phs[n - 1]][..0] == [];
      }
    } else {
      assert phs[..0] == [];
    }
  }

  // ---------------------------------------------------------------------------------------
  // Final clean-up
  // ---------------------------------------------------------------------------------------

  /** `\s+` */
  function SpaceRunAt(s: string, i: nat): (r: Option<nat>)
    ensures r.Some? ==> i < r.value <= |s|
  {
    if i < |s| && IsSpace(s[i]) then Some(RunEnd(s, i, IsSpace)) else None
  }

  /** `[-\s._]` */
  predicate IsLeadJunk(c: char) { c == '-' || IsSpace(c) || c == '.' || c == '_' }

  /** `[ -_.]`: a character range from ' ' to '_' in code-point order, which takes in the
      digits, the capital letters, the brackets and most punctuation, and '.'. */
  predicate InTrailClass(c: char) { (' ' <= c <= '_') || c == '.' }

  /** `^[-\s._]+|[ -_.]+$`: a run of separators at the very start, or a run of the trailing
      class that reaches the end (or a final newline). */
  function EdgeJunkAt(s: string, i: nat): (r: Option<nat>)
    ensures r.Some? ==> i < r.value <= |s|
  {
    if i == 0 && 0 < |s| && IsLeadJunk(s[0]) then Some(RunEnd(s, 0, IsLeadJunk))
    else if i <= |s| then
      var e := RunEnd(s, i, InTrailClass);
      if i < e && (e == |s| || (e + 1 == |s| && s[e] == '\n')) then Some(e) else None
    else None
  }

  /** `\s*-\s*` */
  function DashAt(s: string, i: nat): (r: Option<nat>)
    ensures r.Some? ==> i < r.value <= |s|
  {
    if i <= |s| then
      var w := RunEnd(s, i, IsSpace);
      if w < |s| && s[w] == '-' then Some(RunEnd(s, w + 1, IsSpace)) else None
    else None
  }

  /** Every whitespace character is a plain space. */
  predicate OnlyPlainSpaces(s: string) {
    forall j :: 0 <= j < |s| && IsSpace(s[j]) ==> s[j] == ' '
  }

  predicate NoDoubleSpace(s: string) {
    forall j :: 0 <= j && j + 1 < |s| ==> !(s[j] == ' ' && s[j + 1] == ' ')
  }

  predicate NoSpaceNextToDash(s: string) {
    forall j :: 0 <= j && j + 1 < |s| ==> !(s[j] == ' ' && s[j + 1] == '-') && !(s[j] == '-' && s[j + 1] == ' ')
  }

  /** What the clean-up guarantees of the name it leaves: single plain spaces, none around a
      '-', no separator at the start, and no character of the trailing class at the end. */
  predicate CleanStem(s: string) {
    OnlyPlainSpaces(s) && NoDoubleSpace(s) && NoSpaceNextToDash(s)
    && (|s| == 0 || (!IsLeadJunk(s[0]) && !InTrailClass(s[|s| - 1])))
  }

  /** The clean-up of the rendered template: empty brackets removed, whitespace runs collapsed
      to one space and stripped, separators cut from both ends, spaces around '-' dropped. */
  function Cleanup(t: string): (r: string)
    ensures CleanStem(r)
  {
    var c1 := Strip(Sub(t, Lit("[]"), ""));
    var c2 := Strip(Sub(c1, SpaceRunAt, " "));
    var c3 := Sub(c2, EdgeJunkAt, "");
    CollapseSpaces(c1, 0);
    assert c2 == Sub(c1, SpaceRunAt, " ")[StripStart(Sub(c1, SpaceRunAt, " "))..StripEnd(Sub(c1, SpaceRunAt, " "), StripStart(Sub(c1, SpaceRunAt, " ")))];
    CutEdges(c2);
    DashesFrom(c3, 0);
    LastOfDashes(c3);
    Sub(c3, DashAt, "-")
  }

  /** Where the trailing class starts: `s[b..]` is all in the class and `s[b - 1]` is not. */
  function TrailStart(s: string): (b: nat)
    ensures b <= |s| && (forall j :: b <= j < |s| ==> InTrailClass(s[j]))
    ensures b == 0 || !InTrailClass(s[b - 1])
  {
    TrailStartBelow(s, |s|)
  }

  /** Where the run of the trailing class that ends at `hi` starts. */
  function TrailStartBelow(s: string, hi: nat): (b: nat)
    requires hi <= |s|
    ensures b <= hi && (forall j :: b <= j < hi ==> InTrailClass(s[j]))
    ensures b == 0 || !InTrailClass(s[b - 1])
  {
    if 0 < hi && InTrailClass(s[hi - 1]) then TrailStartBelow(s, hi - 1) else hi
  }


  /** Where the leading run of separators ends. */
  function LeadEnd(s: string): (a: nat)
    ensures a <= |s| && (a == |s| || !IsLeadJunk(s[a]))
  {
    if 0 < |s| && IsLeadJunk(s[0]) then RunEnd(s, 0, IsLeadJunk) else 0
  }

  function Max(a: nat, b: nat): nat { if a < b then b else a }

  /** What a character put in front of a string keeps of the spacing properties. */
  lemma Prepend(c: char, rest: string)
    ensures (IsSpace(c) ==> c == ' ') && OnlyPlainSpaces(rest) ==> OnlyPlainSpaces([c] + rest)
    ensures NoDoubleSpace(rest) && !(c == ' ' && |rest| > 0 && rest[0] == ' ') ==> NoDoubleSpace([c] + rest)
    ensures NoSpaceNextToDash(rest)
            && !(|rest| > 0 && ((c == ' ' && rest[0] == '-') || (c == '-' && rest[0] == ' ')))
            ==> NoSpaceNextToDash([c] + rest)
  {
    var r := [c] + rest;
    assert forall j :: 1 <= j < |r| ==> r[j] == rest[j - 1];
  }

  /** A slice keeps the spacing properties. */
  lemma SliceKeeps(s: string, lo: nat, hi: nat)
    requires lo <= hi <= |s|
    ensures OnlyPlainSpaces(s) ==> OnlyPlainSpaces(s[lo..hi])
    ensures NoDoubleSpace(s) ==> NoDoubleSpace(s[lo..hi])
    ensures NoSpaceNextToDash(s) ==> NoSpaceNextToDash(s[lo..hi])
  {
    var r := s[lo..hi];
    assert forall j :: 0 <= j < |r| ==> r[j] == s[lo + j];
  }

  /** `re.sub(r'\s+', ' ', s)` leaves single plain spaces only, and starts with a space
      exactly where `s` does. */
  lemma {:induction false} CollapseSpaces(s: string, i: nat)
    requires i <= |s|
    ensures var r := SubFrom(s, i, SpaceRunAt, " ");
            OnlyPlainSpaces(r) && NoDoubleSpace(r)
            && (|r| > 0 ==> i < |s| && (r[0] == ' ' <==> IsSpace(s[i])))
    decreases |s| - i
  {
    if i < |s| {
      var r := SubFrom(s, i, SpaceRunAt, " ");
      if IsSpace(s[i]) {
        var e := RunEnd(s, i, IsSpace);
        CollapseSpaces(s, e);
        var rest := SubFrom(s, e, SpaceRunAt, " ");
        assert r == [' '] + rest;
        assert |rest| > 0 ==> rest[0] != ' ';
        Prepend(' ', rest);
      } else {
        CollapseSpaces(s, i + 1);
        var rest := SubFrom(s, i + 1, SpaceRunAt, " ");
        assert r == [s[i]] + rest;
        Prepend(s[i], rest);
      }
    }
  }

  /** Cutting the trailing run, from a position past the start. */
  lemma {:induction false} CutTrailFrom(s: string, i: nat)
    requires 1 <= i <= |s| && OnlyPlainSpaces(s)
    ensures SubFrom(s, i, EdgeJunkAt, "") == s[i..Max(i, TrailStart(s))]
    decreases |s| - i
  {
    if i < |s| {
      if EdgeJunkAt(s, i).Some? {
        TrailReachesEnd(s, i);
      } else {
        CutTrailFrom(s, i + 1);
        TrailStopsLater(s, i);
      }
    }
  }

  /** Past the start, a match of the edge pattern is the trailing run itself. */
  lemma TrailReachesEnd(s: string, i: nat)
    requires 1 <= i < |s| && OnlyPlainSpaces(s) && EdgeJunkAt(s, i).Some?
    ensures SubFrom(s, i, EdgeJunkAt, "") == s[i..Max(i, TrailStart(s))]
  {
    assert forall j :: 0 <= j < |s| ==> s[j] != '\n';
    assert EdgeJunkAt(s, i) == Some(|s|);
    assert TrailStart(s) <= i;
  }

  /** Where the edge pattern does not match past the start, the character is kept and the
      trailing run starts later. */
  lemma TrailStopsLater(s: string, i: nat)
    requires 1 <= i < |s| && OnlyPlainSpaces(s) && EdgeJunkAt(s, i).None?
    requires SubFrom(s, i + 1, EdgeJunkAt, "") == s[i + 1..Max(i + 1, TrailStart(s))]
    ensures SubFrom(s, i, EdgeJunkAt, "") == s[i..Max(i, TrailStart(s))]
  {
    var e := RunEnd(s, i, InTrailClass);
    assert e < |s| && !InTrailClass(s[e]);
    var b := TrailStart(s);
    assert b > i;
    assert s[i..b] == [s[i]] + s[i + 1..b];
  }

  /** `re.sub(r'^[-\s._]+|[ -_.]+$', '', s)` keeps the slice between the leading separators
      and the trailing run. */
  lemma CutEdgesSlice(s: string)
    requires OnlyPlainSpaces(s)
    ensures Sub(s, EdgeJunkAt, "") == s[LeadEnd(s)..Max(LeadEnd(s), TrailStart(s))]
  {
    var a, b := LeadEnd(s), TrailStart(s);
    if |s| > 0 {
      if IsLeadJunk(s[0]) {
        CutTrailFrom(s, a);
      } else {
        var e := RunEnd(s, 0, InTrailClass);
        if 0 < e && e == |s| {
          assert b == 0;
          assert EdgeJunkAt(s, 0) == Some(|s|);
          assert Sub(s, EdgeJunkAt, "") == "" + SubFrom(s, |s|, EdgeJunkAt, "");
        } else {
          assert e < |s| && !InTrailClass(s[e]) && s[e] != '\n';
          CutTrailFrom(s, 1);
          assert s[0..b] == [s[0]] + s[1..b];
        }
      }
    }
  }

  /** After the edges are cut, the name neither starts with a separator nor ends in the
      trailing class. */
  lemma CutEdges(s: string)
    requires OnlyPlainSpaces(s) && NoDoubleSpace(s)
    ensures var r := Sub(s, EdgeJunkAt, "");
            OnlyPlainSpaces(r) && NoDoubleSpace(r)
            && (|r| == 0 || (!IsLeadJunk(r[0]) && !InTrailClass(r[|r| - 1])))
  {
    var a, b := LeadEnd(s), TrailStart(s);
    CutEdgesSlice(s);
    var r := s[a..Max(a, b)];
    SliceKeeps(s, a, Max(a, b));
    if |r| > 0 {
      assert a < b;
      assert r[0] == s[a] && r[|r| - 1] == s[b - 1];
    }
  }

  /** The dash pass from `i` is empty exactly at the end, and starts with the '-' of a match
      at `i` or else with `s[i]`. */
  lemma DashesFirst(s: string, i: nat)
    requires i <= |s|
    ensures var r := SubFrom(s, i, DashAt, "-");
            (|r| > 0 <==> i < |s|)
            && (|r| > 0 ==> (DashAt(s, i).Some? && r[0] == '-') || (DashAt(s, i).None? && r[0] == s[i]))
  {
  }

  /** The dash pass keeps the last character unless `s` ends in a '-' or a space. */
  lemma {:induction false} DashesLast(s: string, i: nat)
    requires i <= |s| && OnlyPlainSpaces(s)
    ensures var r := SubFrom(s, i, DashAt, "-");
            |r| > 0 ==> r[|r| - 1] == s[|s| - 1] || s[|s| - 1] == '-' || s[|s| - 1] == ' '
    decreases |s| - i
  {
    var r := SubFrom(s, i, DashAt, "-");
    if i < |s| {
      var d := DashAt(s, i);
      var next := if d.Some? then d.value else i + 1;
      DashesLast(s, next);
      DashesFirst(s, next);
      var rest := SubFrom(s, next, DashAt, "-");
      assert r == (if d.Some? then "-" else [s[i]]) + rest;
      if |rest| > 0 {
        assert r[|r| - 1] == rest[|rest| - 1];
      } else if d.Some? {
        DashMatchAtEnd(s, i);
      } else {
        assert r[|r| - 1] == s[|s| - 1];
      }
    }
  }


  /** A dash match that reaches the end leaves a '-' or a space as the last character. */
  lemma DashMatchAtEnd(s: string, i: nat)
    requires OnlyPlainSpaces(s) && DashAt(s, i) == Some(|s|)
    ensures s[|s| - 1] == '-' || s[|s| - 1] == ' '
  {
    var w := RunEnd(s, i, IsSpace);
    assert w < |s| && s[w] == '-' && |s| == RunEnd(s, w + 1, IsSpace);
  }

  /** `re.sub(r'\s*-\s*', '-', s)` on a string of single plain spaces leaves no space next to
      a '-'. */
  lemma {:induction false} DashesFrom(s: string, i: nat)
    requires i <= |s| && OnlyPlainSpaces(s) && NoDoubleSpace(s)
    ensures var r := SubFrom(s, i, DashAt, "-");
            OnlyPlainSpaces(r) && NoDoubleSpace(r) && NoSpaceNextToDash(r)
    decreases |s| - i
  {
    if i < |s| {
      var r := SubFrom(s, i, DashAt, "-");
      match DashAt(s, i)
      case Some(e) =>
        DashesFrom(s, e);
        DashesFirst(s, e);
        var rest := SubFrom(s, e, DashAt, "-");
        assert r == ['-'] + rest;
        if |rest| > 0 {
          assert !IsSpace(s[e]);
        }
        Prepend('-', rest);
      case None =>
        DashesFrom(s, i + 1);
        DashesFirst(s, i + 1);
        var rest := SubFrom(s, i + 1, DashAt, "-");
        assert r == [s[i]] + rest;
        assert s[i] != '-';
        if s[i] == ' ' && |rest| > 0 {
          assert s[i + 1] != ' ';
          assert RunEnd(s, i, IsSpace) == i + 1;
          assert s[i + 1] != '-';
          assert DashAt(s, i + 1).None? by {
            assert RunEnd(s, i + 1, IsSpace) == i + 1;
          }
        }
        Prepend(s[i], rest);
    }
  }

  /** The dash pass keeps a first character that is not a separator and a last character
      that is neither '-' nor a space. */
  lemma LastOfDashes(s: string)
    requires OnlyPlainSpaces(s) && NoDoubleSpace(s)
    requires |s| > 0 ==> !IsLeadJunk(s[0]) && !InTrailClass(s[|s| - 1])
    ensures var r := Sub(s, DashAt, "-");
            |r| == 0 || (!IsLeadJunk(r[0]) && !InTrailClass(r[|r| - 1]))
  {
    DashesFirst(s, 0);
    DashesLast(s, 0);
    if |s| > 0 {
      assert RunEnd(s, 0, IsSpace) == 0;
    }
  }

  /** Single plain spaces are left as they are by `re.sub(r'\s+', ' ', s)`. */
  lemma {:induction false} CollapseKeeps(s: string, i: nat)
    requires i <= |s| && OnlyPlainSpaces(s) && NoDoubleSpace(s)
    ensures SubFrom(s, i, SpaceRunAt, " ") == s[i..]
    decreases |s| - i
  {
    if i < |s| {
      if IsSpace(s[i]) {
        assert RunEnd(s, i, IsSpace) == i + 1 by {
          assert i + 1 == |s| || !IsSpace(s[i + 1]);
        }
      }
      CollapseKeeps(s, i + 1);
      assert s[i..] == [s[i]] + s[i + 1..];
    }
  }

  /** A '-' without spaces around it is left as it is by `re.sub(r'\s*-\s*', '-', s)`. */
  lemma {:induction false} DashesKeep(s: string, i: nat)
    requires i <= |s| && OnlyPlainSpaces(s) && NoDoubleSpace(s) && NoSpaceNextToDash(s)
    ensures SubFrom(s, i, DashAt, "-") == s[i..]
    decreases |s| - i
  {
    if i < |s| {
      if s[i] == '-' {
        assert RunEnd(s, i, IsSpace) == i;
        assert RunEnd(s, i + 1, IsSpace) == i + 1 by {
          assert i + 1 == |s| || !IsSpace(s[i + 1]);
        }
      } else if IsSpace(s[i]) {
        assert RunEnd(s, i, IsSpace) == i + 1 by {
          assert i + 1 == |s| || !IsSpace(s[i + 1]);
        }
      } else {
        assert RunEnd(s, i, IsSpace) == i;
      }
      DashesKeep(s, i + 1);
      assert s[i..] == [s[i]] + s[i + 1..];
    }
  }

  lemma StripKeeps(s: string)
    requires |s| == 0 || (!IsSpace(s[0]) && !IsSpace(s[|s| - 1]))
    ensures Strip(s) == s
  {
  }

  /** The clean-up leaves a name that is already clean (and has no empty brackets) as it is:
      applied to its own output it changes nothing more unless removing characters formed a
      new `[]`. */
  lemma CleanupKeepsCleanStem(t: string)
    requires CleanStem(t) && !Contains(t, "[]")
    ensures Cleanup(t) == t
  {
    forall j | 0 <= j < |t|
      ensures Lit("[]")(t, j).None?
    {
      assert !OccursAt(t, j, "[]");
    }
    SubFromNoMatch(t, 0, Lit("[]"), "");
    assert t[0..] == t;
    StripKeeps(t);
    CollapseKeeps(t, 0);
    assert LeadEnd(t) == 0 && TrailStart(t) == |t|;
    CutEdgesSlice(t);
    DashesKeep(t, 0);
  }

  /** The clean-up is idempotent, except where removing characters brought a `[` and a `]`
      together. */
  lemma CleanupIdempotent(t: string)
    requires !Contains(Cleanup(t), "[]")
    ensures Cleanup(Cleanup(t)) == Cleanup(t)
  {
    CleanupKeepsCleanStem(Cleanup(t));
  }

  /** The clean-up's trailing range takes in the digits: a clean name followed by a run of
      characters between ' ' and '_' loses that run, numbers and all. */
  lemma CleanupCutsTrailingRun(x: string, y: string)
    requires CleanStem(x) && |x| > 0 && |y| > 0
    requires forall j :: 0 <= j < |y| ==> InTrailClass(y[j])
    requires !IsSpace(y[|y| - 1])
    requires OnlyPlainSpaces(x + y) && NoDoubleSpace(x + y) && NoSpaceNextToDash(x + y)
    requires !Contains(x + y, "[]")
    ensures Cleanup(x + y) == x
  {
    var t := x + y;
    forall j | 0 <= j < |t|
      ensures Lit("[]")(t, j).None?
    {
      assert !OccursAt(t, j, "[]");
    }
    SubFromNoMatch(t, 0, Lit("[]"), "");
    assert t[0..] == t;
    StripKeeps(t);
    CollapseKeeps(t, 0);
    assert LeadEnd(t) == 0;
    assert TrailStart(t) == |x| by {
      var b := TrailStart(t);
      assert t[|x| - 1] == x[|x| - 1];
      assert forall j :: |x| <= j < |t| ==> t[j] == y[j - |x|];
      assert !InTrailClass(t[|x| - 1]);
    }
    CutEdgesSlice(t);
    assert t[0..|x|] == x;
    DashesKeep(x, 0);
    assert x[0..] == x;
  }

  /** The as-written clean-up cuts the episode number off "Naruto 05". */
  lemma TrailingNumberIsCut()
    ensures Cleanup("Naruto 05") == "Naruto"
  {
    var x, y := "Naruto", " 05";
    assert x + y == "Naruto 05";
    NarutoIsClean();
    NarutoNameIsTidy();
    assert forall j :: 0 <= j < |y| ==> InTrailClass(y[j]);
    CleanupCutsTrailingRun(x, y);
  }

  lemma NarutoIsClean()
    ensures CleanStem("Naruto")
  {
    var x := "Naruto";
    assert forall j :: 0 <= j < |x| ==> IsAsciiLetter(x[j]);
  }

  lemma NarutoNameIsTidy()
    ensures OnlyPlainSpaces("Naruto 05") && NoDoubleSpace("Naruto 05") && NoSpaceNextToDash("Naruto 05")
    ensures !Contains("Naruto 05", "[]")
  {
    var t := "Naruto 05";
    assert forall j :: 0 <= j < |t| ==> t[j] != '[' && t[j] != '-' && (IsSpace(t[j]) ==> j == 6);
    forall k | 0 <= k <= |t| - 2
      ensures !OccursAt(t, k, "[]")
    {
      assert t[k] != '[';
    }
  }


  // ---------------------------------------------------------------------------------------
  // Extension and media type
  // ---------------------------------------------------------------------------------------

  /** Index of the last `c` in `s`, or -1. */
  function LastIndexOf(s: string, c: char): (r: int)
    ensures -1 <= r < |s| && (r >= 0 ==> s[r] == c)
    ensures forall j :: r < j < |s| ==> s[j] != c
    decreases |s|
  {
    if |s| == 0 then -1
    else if s[|s| - 1] == c then |s| - 1
    else LastIndexOf(s[..|s| - 1], c)
  }

  /** `os.path.splitext(p)` on a POSIX path: the extension runs from the last '.' of the last
      path component, unless that component has only dots before it. */
  function SplitExt(p: string): (r: (string, string))
    ensures r.0 + r.1 == p
    ensures r.1 == "" || (r.1[0] == '.' && forall j :: 0 < j < |r.1| ==> r.1[j] != '.' && r.1[j] != '/')
    ensures r.1 != "" ==> exists j :: 0 <= j < |r.0| && r.0[j] != '.' && r.0[j] != '/' && forall k :: j < k < |r.0| ==> r.0[k] != '/'
  {
    var sep := LastIndexOf(p, '/');
    var dot := LastIndexOf(p, '.');
    if dot > sep && exists j :: sep < j < dot && p[j] != '.' then
      assert p[..dot] + p[dot..] == p;
      (p[..dot], p[dot..])
    else (p, "")
  }

  /** The converse: a final '.' suffix with no '.' or '/' after its dot is the extension,
      when the last path component before it has a character other than '.'. */
  lemma SplitExtFindsExtension(stem: string, ext: string)
    requires |ext| > 0 && ext[0] == '.' && forall j :: 0 < j < |ext| ==> ext[j] != '.' && ext[j] != '/'
    requires exists j :: 0 <= j < |stem| && stem[j] != '.' && stem[j] != '/' && forall k :: j < k < |stem| ==> stem[k] != '/'
    ensures SplitExt(stem + ext) == (stem, ext)
  {
    var p := stem + ext;
    var j :| 0 <= j < |stem| && stem[j] != '.' && stem[j] != '/' && forall k :: j < k < |stem| ==> stem[k] != '/';
    assert p[|stem|] == '.';
    assert forall k :: |stem| < k < |p| ==> p[k] == ext[k - |stem|];
    var dot := LastIndexOf(p, '.');
    var sep := LastIndexOf(p, '/');
    assert dot == |stem|;
    assert p[j] == stem[j];
    assert forall k :: j < k < |stem| ==> p[k] == stem[k];
    assert sep < j;
    assert p[..dot] == stem && p[dot..] == ext;
  }

  /** `s.endswith(suffix)` */
  predicate EndsWith(s: string, suffix: string) {
    |suffix| <= |s| && s[|s| - |suffix|..] == suffix
  }

  /** `s.endswith(suffixes)` for a tuple of suffixes. */
  predicate EndsWithAny(s: string, suffixes: seq<string>) {
    exists k :: 0 <= k < |suffixes| && EndsWith(s, suffixes[k])
  }

  const VideoExtensions: seq<string> := [".mp4", ".mkv", ".avi", ".webm"]
  const AudioExtensions: seq<string> := [".mp3", ".flac", ".wav", ".ogg"]

  /** How the renamed file is sent: a video or audio extension (any letter case) decides,
      otherwise the user's preference, and "document" when none is set. */
  function MediaType(fileName: string, preference: Option<string>): (m: string)
    ensures EndsWithAny(LowerStr(fileName), VideoExtensions) ==> m == "video"
    ensures !EndsWithAny(LowerStr(fileName), VideoExtensions) && EndsWithAny(LowerStr(fileName), AudioExtensions)
            ==> m == "audio"
    ensures !EndsWithAny(LowerStr(fileName), VideoExtensions) && !EndsWithAny(LowerStr(fileName), AudioExtensions)
            ==> m == (if preference.Some? && preference.value != "" then preference.value else "document")
  {
    var lower := LowerStr(fileName);
    if EndsWithAny(lower, VideoExtensions) then "video"
    else if EndsWithAny(lower, AudioExtensions) then "audio"
    else if preference.Some? && preference.value != "" then preference.value
    else "document"
  }

  /** The extension that `os.path.splitext` sees decides the media type when it is one of the
      listed video or audio extensions, in any letter case. */
  lemma MediaTypeFollowsExtension(fileName: string, preference: Option<string>)
    ensures LowerStr(SplitExt(fileName).1) in VideoExtensions ==> MediaType(fileName, preference) == "video"
    ensures LowerStr(SplitExt(fileName).1) in AudioExtensions ==> MediaType(fileName, preference) == "audio"
  {
    var e := LowerStr(SplitExt(fileName).1);
    LowerNameEndsWithExtension(fileName);
    if e in VideoExtensions {
      var k :| 0 <= k < |VideoExtensions| && VideoExtensions[k] == e;
      assert EndsWith(LowerStr(fileName), VideoExtensions[k]);
    }
    if e in AudioExtensions {
      var k :| 0 <= k < |AudioExtensions| && AudioExtensions[k] == e;
      assert EndsWith(LowerStr(fileName), AudioExtensions[k]);
      AudioSuffixIsNoVideoSuffix(LowerStr(fileName), e);
    }
  }

  lemma LowerNameEndsWithExtension(fileName: string)
    ensures EndsWith(LowerStr(fileName), LowerStr(SplitExt(fileName).1))
  {
    var (stem, ext) := SplitExt(fileName);
    var lower, e := LowerStr(fileName), LowerStr(ext);
    LowerStrConcat(stem, ext);
    assert lower[|lower| - |e|..] == e;
  }

  /** No name ends with both a listed audio and a listed video extension. */
  lemma AudioSuffixIsNoVideoSuffix(s: string, e: string)
    requires e in AudioExtensions && EndsWith(s, e)
    ensures !EndsWithAny(s, VideoExtensions)
  {
    LastTwoOfSuffix(s, e);
    forall k | 0 <= k < |VideoExtensions|
      ensures !EndsWith(s, VideoExtensions[k])
    {
      LastTwoOfSuffix(s, VideoExtensions[k]);
    }
  }

  /** A suffix fixes the last two characters. */
  lemma LastTwoOfSuffix(s: string, suffix: string)
    requires |suffix| >= 2
    ensures EndsWith(s, suffix) ==> s[|s| - 1] == suffix[|suffix| - 1] && s[|s| - 2] == suffix[|suffix| - 2]
  {
    if EndsWith(s, suffix) {
      assert s[|s| - 1] == s[|s| - |suffix|..][|suffix| - 1];
      assert s[|s| - 2] == s[|s| - |suffix|..][|suffix| - 2];
    }
  }

  lemma LowerUpper(s: string)
    ensures LowerStr(UpperStr(s)) == LowerStr(s)
  {
  }

  /** The extension decides the media type whatever the letter case of the file name. */
  lemma MediaTypeIgnoresCase(fileName: string, preference: Option<string>)
    ensures MediaType(UpperStr(fileName), preference) == MediaType(fileName, preference)
  {
    LowerUpper(fileName);
  }

  // ---------------------------------------------------------------------------------------
  // The whole rendering
  // ---------------------------------------------------------------------------------------

  /** The template after all passes and the clean-up. */
  function RenderedStem(formatTemplate: string, episode: nat, season: nat, audio: string, quality: string)
    : string
  {
    var t1 := SeasonPass(EpisodePass(formatTemplate, episode), season);
    var t2 := AudioPass(QualityPass(t1, quality), audio);
    Cleanup(BlockPass(t2, season, episode))
  }

  /** When nothing usable was extracted from the file name, every pass before the clean-up
      only removes characters from the template. */
  lemma NothingKnownOnlyDeletes(t: string, episode: nat, season: nat, audio: string)
    requires !EpisodeValid(episode) && !SeasonValid(season) && (audio == "" || audio == "Unknown")
    ensures Deletes(BlockPass(AudioPass(QualityPass(SeasonPass(EpisodePass(t, episode), season), "Unknown"), audio),
                              season, episode), t)
  {
    var t1 := EpisodePass(t, episode);
    var t2 := SeasonPass(t1, season);
    var t3 := QualityPass(t2, "Unknown");
    var t4 := AudioPass(t3, audio);
    InvalidEpisodeOnlyDeletes(t, episode);
    InvalidSeasonOnlyDeletes(t1, season);
    UnknownQualityOnlyDeletes(t2, QualityPlaceholders);
    UnknownAudioOnlyDeletes(t3, audio);
    NoNumbersBlockOnlyDeletes(t4, season, episode);
    DeletesTrans(t2, t1, t);
    DeletesTrans(t3, t2, t);
    DeletesTrans(t4, t3, t);
    DeletesTrans(BlockPass(t4, season, episode), t4, t);
  }

  /** `for ph in placeholders: t = t.replace(ph, value, 1)`. */
  method ReplaceEach(template: string, pats: seq<string>, value: string) returns (t: string)
    ensures t == ReplaceEachFirst(template, pats, value)
  {
    t := template;
    for k := 0 to |pats|
      invariant t == ReplaceEachFirst(template, pats[..k], value)
    {
      assert pats[..k + 1][..k] == pats[..k];
      t := ReplaceFirst(t, pats[k], value);
    }
    assert pats[..|pats|] == pats;
  }

  /** The episode pass as the renamer runs it, one placeholder spelling at a time. */
  method ApplyEpisode(template: string, episode: nat) returns (t: string)
    ensures t == EpisodePass(template, episode)
  {
    t := template;
    if EpisodeValid(episode) {
      t := ReplaceEach(template, EpisodePlaceholders, ZeroPad2(episode));
    } else {
      t := Sub(t, LitCI("{episode}"), "");
      t := Sub(t, EpisodeWordNumberAt, "");
      t := Sub(t, EpisodeMarkNumberAt, "");
    }
  }

  /** The season pass as the renamer runs it. */
  method ApplySeason(template: string, season: nat) returns (t: string)
    ensures t == SeasonPass(template, season)
  {
    t := template;
    if SeasonValid(season) {
      t := ReplaceEach(template, SeasonPlaceholders, ZeroPad2(season));
    } else {
      t := Sub(t, LitCI("{season}"), "");
      t := Sub(t, SeasonWordNumberAt, "");
    }
  }

  /** The quality pass as the renamer runs it. */
  method ApplyQuality(template: string, quality: string) returns (t: string)
    ensures t == QualityPass(template, quality)
  {
    t := ApplyQualityOver(template, QualityPlaceholders, quality);
  }

  /** The quality loop over the given spellings, bracketed then bare form for each. */
  method ApplyQualityOver(template: string, phs: seq<string>, quality: string) returns (t: string)
    ensures t == QualityPassOver(template, phs, quality)
  {
    t := template;
    for k := 0 to |phs|
      invariant t == QualityPassOver(template, phs[..k], quality)
    {
      assert phs[..k + 1][..k] == phs[..k];
      var ph := phs[k];
      var bracketed := LitCI("[" + ph + "]");
      if Search(t, bracketed).Some? {
        if quality == "Unknown" {
          t := Sub(t, bracketed, "");
        } else {
          t := Sub(t, bracketed, "[" + quality + "]");
        }
      }
      var bare := WordCI(ph);
      if Search(t, bare).Some? {
        if quality == "Unknown" {
          t := Sub(t, bare, "");
        } else {
          t := Sub(t, bare, quality);
        }
      }
    }
    assert phs[..|phs|] == phs;
  }

  /** The audio pass as the renamer runs it. */
  method ApplyAudio(template: string, audio: string) returns (t: string)
    ensures t == AudioPass(template, audio)
  {
    var actualAudio := "";
    if audio != "" && audio != "Unknown" {
      actualAudio := audio;
    }
    t := Sub(template, LitCI("[audio]"), if actualAudio != "" then "[" + actualAudio + "]" else "");
    t := Sub(t, LitCI("{audio}"), actualAudio);
    t := Sub(t, WordCI("audio"), actualAudio);
  }

  /** The `[SSeason-EP…]` block pass as the renamer runs it. */
  method ApplyBlock(template: string, season: nat, episode: nat) returns (t: string)
    ensures t == BlockPass(template, season, episode)
  {
    var blockContent: seq<string> := [];
    if SeasonValid(season) {
      blockContent := blockContent + ["S" + ZeroPad2(season)];
    }
    if EpisodeValid(episode) {
      blockContent := blockContent + ["EP" + ZeroPad2(episode)];
    }
    assert blockContent == BlockParts(season, episode);
    var dynamicBlock := "";
    if |blockContent| > 0 {
      dynamicBlock := "[" + Join("-", blockContent) + "]";
    }
    t := Sub(template, FullBlockAt, dynamicBlock);
    t := Sub(t, LitCI("[sseason]"), if SeasonValid(season) then "[S" + ZeroPad2(season) + "]" else "");
    t := Sub(t, EpisodeBlockAt, if EpisodeValid(episode) then "[EP" + ZeroPad2(episode) + "]" else "");
  }

  /** The final clean-up as the renamer runs it. */
  method ApplyCleanup(template: string) returns (t: string)
    ensures t == Cleanup(template)
  {
    t := Strip(Sub(template, Lit("[]"), ""));
    t := Strip(Sub(t, SpaceRunAt, " "));
    t := Sub(t, EdgeJunkAt, "");
    t := Sub(t, DashAt, "-");
  }

  /** Renders the user's template for one file, pass after pass, and appends the original
      file's extension. */
  method RenderName(formatTemplate: string, fileName: string, episode: nat, season: nat, audio: string, quality: string)
    returns (stem: string, newName: string)
    ensures stem == RenderedStem(formatTemplate, episode, season, audio, quality)
    ensures CleanStem(stem)
    ensures newName == stem + SplitExt(fileName).1
  {
    var template := ApplyEpisode(formatTemplate, episode);
    template := ApplySeason(template, season);
    template := ApplyQuality(template, quality);
    template := ApplyAudio(template, audio);
    template := ApplyBlock(template, season, episode);
    template := ApplyCleanup(template);
    var (_, extension) := SplitExt(fileName);
    stem := template;
    newName := template + extension;
  }
}
