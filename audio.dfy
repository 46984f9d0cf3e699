/** `extract_audio_info`: which audio descriptions a filename mentions. Every entry of the
    pattern table is searched in table order; a language (or "dual"/"multi") hit is put at the
    front of the list, everything else at the back; repeated tokens are dropped, keeping the
    first; the tokens are joined with single spaces, or the answer is "Unknown". */
module Audio {
  import opened Text
  import opened Regex

  /** How one entry of the pattern table matches (all with `re.IGNORECASE`). */
  datatype AudioPattern =
    | Words(alts: seq<string>)                          // `\b(?:A|B|...)\b`
    | WordsOrSpelled(alts: seq<string>, adj: string)    // `\b(?:A|B|Adj[\s-]?Quality)\b`
    | QualityAudio                                      // `((?:360p|480p|720p|1080p)?\s*audio)\b`

  datatype AudioEntry = AudioEntry(key: string, pattern: AudioPattern)

  const ComboKey: string := "audio_quality_combo"

  /** The keys whose hits go to the front of the list. */
  const LanguageKeys: seq<string> := ["hindi", "english", "multi", "telugu", "tamil", "dual"]

  predicate IsLanguageKey(key: string) { key in LanguageKeys }

  /** The first six entries of the table, all of them language keys. */
  const LanguagePatterns: seq<AudioEntry> := [
    AudioEntry("hindi", Words(["Hindi", "HINDI"])),
    AudioEntry("english", Words(["English", "ENGLISH"])),
    AudioEntry("multi", Words(["Multi", "MULTI"])),
    AudioEntry("telugu", Words(["Telugu", "TELUGU"])),
    AudioEntry("tamil", Words(["Tamil", "TAMIL"])),
    AudioEntry("dual", Words(["Dual", "DUAL"]))
  ]

  /** The remaining sixteen entries, in table order. */
  const OtherPatterns: seq<AudioEntry> := [
    AudioEntry(ComboKey, QualityAudio),
    AudioEntry("aac", Words(["AAC", "aac"])),
    AudioEntry("ac3", Words(["AC3", "ac3", "AC-3", "ac-3"])),
    AudioEntry("dts", Words(["DTS", "dts"])),
    AudioEntry("mp3", Words(["MP3", "mp3"])),
    AudioEntry("flac", Words(["FLAC", "flac"])),
    AudioEntry("opus", Words(["OPUS", "opus"])),
    AudioEntry("vorbis", Words(["VORBIS", "vorbis", "OGG", "ogg"])),
    AudioEntry("2.0", Words(["2.0", "2ch", "stereo"])),
    AudioEntry("5.1", Words(["5.1", "5ch"])),
    AudioEntry("7.1", Words(["7.1", "7ch"])),
    AudioEntry("mono", Words(["mono", "1ch", "1.0"])),
    AudioEntry("hq", WordsOrSpelled(["HQ", "hq"], "High")),
    AudioEntry("lq", WordsOrSpelled(["LQ", "lq"], "Low")),
    AudioEntry("dolby", Words(["Dolby", "DOLBY", "DD", "dd"])),
    AudioEntry("atmos", Words(["Atmos", "ATMOS"]))
  ]

  /** `audio_patterns`, in dictionary order. */
  const AudioPatterns: seq<AudioEntry> := LanguagePatterns + OtherPatterns

  // ---------------------------------------------------------------------------------------
  // The patterns
  // ---------------------------------------------------------------------------------------

  /** `\b(?:A|B|...)\b` at `i`: the alternatives are tried in order. */
  function AltWordsAt(alts: seq<string>, s: string, i: nat): (r: Option<nat>)
    ensures r.Some? ==> i <= r.value <= |s|
    ensures r.Some? ==>
      exists k :: 0 <= k < |alts| && WordAt(alts[k], s, i) && r.value == i + |alts[k]| &&
        (forall k' :: 0 <= k' < k ==> !WordAt(alts[k'], s, i))
    ensures r.None? ==> forall k :: 0 <= k < |alts| ==> !WordAt(alts[k], s, i)
    decreases |alts|
  {
    if |alts| == 0 then None
    else if WordAt(alts[0], s, i) then Some(i + |alts[0]|)
    else
      var r := AltWordsAt(alts[1..], s, i);
      assert forall k :: 1 <= k < |alts| ==> alts[k] == alts[1..][k - 1];
      if r.Some? then
        var k :| 0 <= k < |alts[1..]| && WordAt(alts[1..][k], s, i) && r.value == i + |alts[1..][k]|
                 && (forall k' :: 0 <= k' < k ==> !WordAt(alts[1..][k'], s, i));
        assert WordAt(alts[k + 1], s, i);
        r
      else r
  }

  /** `\bword\b` with `re.IGNORECASE` at `i`. */
  predicate WordAt(word: string, s: string, i: nat) {
    AtWordBoundary(s, i) && OccursAtCI(s, i, word) && AtWordBoundary(s, i + |word|)
  }

  /** `\bAdj[\s-]?Quality\b` at `i`: the optional separator is tried first, then left out. */
  function SpelledQualityAt(adj: string, s: string, i: nat): (r: Option<nat>)
    ensures r.Some? ==> i <= r.value <= |s|
  {
    if !(AtWordBoundary(s, i) && OccursAtCI(s, i, adj)) then None
    else
      var j := i + |adj|;
      if j < |s| && (IsSpace(s[j]) || s[j] == '-') && OccursAtCI(s, j + 1, "quality") && AtWordBoundary(s, j + 8)
      then Some(j + 8)
      else if OccursAtCI(s, j, "quality") && AtWordBoundary(s, j + 7) then Some(j + 7)
      else None
  }

  /** `(?:360p|480p|720p|1080p)` at `i` */
  function QualityPrefixEnd(s: string, i: nat): (r: Option<nat>)
    ensures r.Some? ==> i <= r.value <= |s|
  {
    if OccursAtCI(s, i, "360p") || OccursAtCI(s, i, "480p") || OccursAtCI(s, i, "720p") then Some(i + 4)
    else if OccursAtCI(s, i, "1080p") then Some(i + 5)
    else None
  }

  /** `audio\b` at `j` */
  function AudioWordEnd(s: string, j: nat): (r: Option<nat>)
    ensures r.Some? ==> j <= r.value <= |s|
  {
    if OccursAtCI(s, j, "audio") && AtWordBoundary(s, j + 5) then Some(j + 5) else None
  }

  /** `((?:360p|480p|720p|1080p)?\s*audio)\b` at `i`: the optional resolution is tried first,
      then left out; the spaces before `audio` can only be taken all at once. */
  function QualityAudioAt(s: string, i: nat): (r: Option<nat>)
    ensures r.Some? ==> i <= r.value <= |s|
  {
    if i > |s| then None
    else
      var withResolution :=
        match QualityPrefixEnd(s, i)
        case Some(q) => AudioWordEnd(s, RunEnd(s, q, IsSpace))
        case None => None;
      if withResolution.Some? then withResolution else AudioWordEnd(s, RunEnd(s, i, IsSpace))
  }

  function PatternEnd(p: AudioPattern, s: string, i: nat): (r: Option<nat>)
    ensures r.Some? ==> i <= r.value <= |s|
  {
    match p
    case Words(alts) => AltWordsAt(alts, s, i)
    case WordsOrSpelled(alts, adj) =>
      var w := AltWordsAt(alts, s, i);
      if w.Some? then w else SpelledQualityAt(adj, s, i)
    case QualityAudio => QualityAudioAt(s, i)
  }

  function PatternMatcher(p: AudioPattern): Matcher {
    (s: string, i: nat) => PatternEnd(p, s, i)
  }

  /** `pattern.search(filename)`: the matched text (for the combination pattern, its group). */
  function EntryMatch(e: AudioEntry, s: string): (r: Option<string>)
    ensures r.None? <==> Search(s, PatternMatcher(e.pattern)).None?
  {
    match FirstMatchPos(s, 0, PatternMatcher(e.pattern))
    case Some(k) => Some(s[k..PatternEnd(e.pattern, s, k).value])
    case None => None
  }

  /** `str.replace(' ', '')` */
  function RemoveSpaces(t: string): (r: string)
    ensures forall j :: 0 <= j < |r| ==> r[j] != ' '
    ensures Deletes(r, t)
    ensures forall c :: c != ' ' ==> multiset(r)[c] == multiset(t)[c]
  {
    if |t| == 0 then []
    else
      var rest := RemoveSpaces(t[1..]);
      assert t == [t[0]] + t[1..];
      if t[0] == ' ' then rest
      else
        var r := [t[0]] + rest;
        assert r[1..] == rest;
        r
  }

  // ---------------------------------------------------------------------------------------
  // What the loop collects, stated declaratively
  // ---------------------------------------------------------------------------------------

  /** The token an entry contributes when its pattern matched `m`. */
  function EntryToken(e: AudioEntry, m: string): string {
    if e.key == ComboKey then UpperStr(RemoveSpaces(m)) else UpperStr(e.key)
  }

  /** What a language entry contributes: its token if it matches. */
  function LanguageHit(e: AudioEntry, s: string): seq<string> {
    var m := EntryMatch(e, s);
    if m.Some? && e.key != ComboKey && IsLanguageKey(e.key) then [EntryToken(e, m.value)] else []
  }

  /** What any other entry contributes: its token if it matches. */
  function OtherHit(e: AudioEntry, s: string): seq<string> {
    var m := EntryMatch(e, s);
    if m.Some? && (e.key == ComboKey || !IsLanguageKey(e.key)) then [EntryToken(e, m.value)] else []
  }

  /** The tokens of the language entries of `es` that match, in table order. */
  function LanguageTokens(s: string, es: seq<AudioEntry>): seq<string>
    decreases |es|
  {
    if |es| == 0 then [] else LanguageTokens(s, es[..|es| - 1]) + LanguageHit(es[|es| - 1], s)
  }

  /** The tokens of the other entries of `es` that match, in table order. */
  function OtherTokens(s: string, es: seq<AudioEntry>): seq<string>
    decreases |es|
  {
    if |es| == 0 then [] else OtherTokens(s, es[..|es| - 1]) + OtherHit(es[|es| - 1], s)
  }

  function Reverse<T>(xs: seq<T>): (r: seq<T>)
    ensures |r| == |xs|
    ensures forall j :: 0 <= j < |xs| ==> r[j] == xs[|xs| - 1 - j]
  {
    if |xs| == 0 then [] else [xs[|xs| - 1]] + Reverse(xs[..|xs| - 1])
  }

  /** `detected_audio` before the duplicates are dropped: the matched languages in reverse
      table order, then every other match in table order. */
  function AudioTokens(s: string): seq<string> {
    Reverse(LanguageTokens(s, AudioPatterns)) + OtherTokens(s, AudioPatterns)
  }

  /** No entry of `es` matches the name. */
  predicate NoEntryMatches(s: string, es: seq<AudioEntry>) {
    forall n :: 0 <= n < |es| ==> EntryMatch(es[n], s).None?
  }

  /** No entry of the table matches the name. */
  predicate NoAudioHit(s: string) {
    NoEntryMatches(s, AudioPatterns)
  }

  predicate NoDuplicates<T(==)>(xs: seq<T>) {
    forall i, j :: 0 <= i < j < |xs| ==> xs[i] != xs[j]
  }

  /** `list(dict.fromkeys(xs))`: the first occurrence of every element, in order. */
  function Dedupe(xs: seq<string>): (r: seq<string>)
    ensures NoDuplicates(r)
    ensures forall t :: t in r <==> t in xs
    ensures |xs| > 0 ==> |r| > 0 && r[0] == xs[0]
    decreases |xs|
  {
    if |xs| == 0 then []
    else
      var d := Dedupe(xs[..|xs| - 1]);
      assert forall t :: t in xs <==> t in xs[..|xs| - 1] || t == xs[|xs| - 1];
      if xs[|xs| - 1] in d then d else d + [xs[|xs| - 1]]
  }

  // ---------------------------------------------------------------------------------------
  // extract_audio_info
  // ---------------------------------------------------------------------------------------

  /** The loop of `extract_audio_info` over `table`: a language hit goes to the front, any other
      hit to the back, so the languages end up in reverse table order ahead of the rest. */
  method CollectAudio(filename: string, table: seq<AudioEntry>) returns (detected: seq<string>)
    ensures detected == Reverse(LanguageTokens(filename, table)) + OtherTokens(filename, table)
  {
    detected := [];
    for n := 0 to |table|
      invariant detected == Reverse(LanguageTokens(filename, table[..n])) + OtherTokens(filename, table[..n])
    {
      var entry := table[n];
      var m := EntryMatch(entry, filename);
      if m.Some? {
        if entry.key == ComboKey {
          detected := detected + [UpperStr(RemoveSpaces(m.value))];
          AppendStep(filename, table, n);
        } else if IsLanguageKey(entry.key) {
          detected := [UpperStr(entry.key)] + detected;
          PrependStep(filename, table, n);
        } else {
          detected := detected + [UpperStr(entry.key)];
          AppendStep(filename, table, n);
        }
      } else {
        MissStep(filename, table, n);
      }
    }
    assert table[..|table|] == table;
  }

  /** A table entry that is not a language and matches adds its token at the back. */
  lemma AppendStep(s: string, table: seq<AudioEntry>, n: nat)
    requires n < |table| && EntryMatch(table[n], s).Some?
    requires table[n].key == ComboKey || !IsLanguageKey(table[n].key)
    ensures var t := EntryToken(table[n], EntryMatch(table[n], s).value);
      Reverse(LanguageTokens(s, table[..n + 1])) + OtherTokens(s, table[..n + 1])
      == (Reverse(LanguageTokens(s, table[..n])) + OtherTokens(s, table[..n])) + [t]
  {
    var t := EntryToken(table[n], EntryMatch(table[n], s).value);
    TokensStep(s, table, n);
    assert LanguageHit(table[n], s) == [];
    assert OtherHit(table[n], s) == [t];
    var langs := LanguageTokens(s, table[..n]);
    var others := OtherTokens(s, table[..n]);
    assert LanguageTokens(s, table[..n + 1]) == langs + [] == langs;
    assert OtherTokens(s, table[..n + 1]) == others + [t];
    AppendOther(Reverse(langs), others, t);
  }

  lemma AppendOther(langs: seq<string>, others: seq<string>, t: string)
    ensures langs + (others + [t]) == (langs + others) + [t]
  {
  }

  /** A language entry that matches adds its token at the front. */
  lemma PrependStep(s: string, table: seq<AudioEntry>, n: nat)
    requires n < |table| && EntryMatch(table[n], s).Some?
    requires table[n].key != ComboKey && IsLanguageKey(table[n].key)
    ensures Reverse(LanguageTokens(s, table[..n + 1])) + OtherTokens(s, table[..n + 1])
      == [UpperStr(table[n].key)] + (Reverse(LanguageTokens(s, table[..n])) + OtherTokens(s, table[..n]))
  {
    TokensStep(s, table, n);
    PrependLanguage(LanguageTokens(s, table[..n]), OtherTokens(s, table[..n]), UpperStr(table[n].key));
  }

  /** An entry that does not match adds nothing. */
  lemma MissStep(s: string, table: seq<AudioEntry>, n: nat)
    requires n < |table| && EntryMatch(table[n], s).None?
    ensures LanguageTokens(s, table[..n + 1]) == LanguageTokens(s, table[..n])
    ensures OtherTokens(s, table[..n + 1]) == OtherTokens(s, table[..n])
  {
    TokensStep(s, table, n);
  }

  /** `extract_audio_info`: "Unknown" exactly when no entry matches, and otherwise the
      collected tokens, first occurrences only, joined by single spaces. */
  method ExtractAudioInfo(filename: string) returns (info: string)
    ensures info == "Unknown" <==> NoAudioHit(filename)
    ensures !NoAudioHit(filename) ==> info == Join(" ", Dedupe(AudioTokens(filename)))
  {
    var detected := CollectAudio(filename, AudioPatterns);
    AudioTokensFacts(filename);
    detected := Dedupe(detected);
    if |detected| > 0 {
      info := Join(" ", detected);
      JoinNoLowercase(detected);
      UpperCaseIsNotUnknown(info);
    } else {
      info := "Unknown";
    }
  }

  /** One more table entry adds at most one token, to one of the two lists. */
  lemma TokensStep(s: string, es: seq<AudioEntry>, n: nat)
    requires n < |es|
    ensures LanguageTokens(s, es[..n + 1]) == LanguageTokens(s, es[..n]) + LanguageHit(es[n], s)
    ensures OtherTokens(s, es[..n + 1]) == OtherTokens(s, es[..n]) + OtherHit(es[n], s)
  {
    assert es[..n + 1][..n] == es[..n];
  }

  lemma PrependLanguage(langs: seq<string>, others: seq<string>, t: string)
    ensures [t] + (Reverse(langs) + others) == Reverse(langs + [t]) + others
  {
    ReverseSnoc(langs, t);
  }

  lemma ReverseSnoc(xs: seq<string>, x: string)
    ensures Reverse(xs + [x]) == [x] + Reverse(xs)
  {
    assert (xs + [x])[..|xs|] == xs;
  }

  /** The collected list is empty exactly when nothing matches, and holds upper-case tokens. */
  lemma AudioTokensFacts(s: string)
    ensures |AudioTokens(s)| == 0 <==> NoAudioHit(s)
    ensures forall t :: t in Dedupe(AudioTokens(s)) ==> NoLowercase(t)
  {
    TokensEmptyIff(s, AudioPatterns);
    TokensNoLowercase(s, AudioPatterns);
    CollectedNoLowercase(LanguageTokens(s, AudioPatterns), OtherTokens(s, AudioPatterns));
  }

  // ---------------------------------------------------------------------------------------
  // Properties
  // ---------------------------------------------------------------------------------------

  lemma NoEntryMatchesSnoc(s: string, es: seq<AudioEntry>)
    requires |es| > 0
    ensures NoEntryMatches(s, es) <==> NoEntryMatches(s, es[..|es| - 1]) && EntryMatch(es[|es| - 1], s).None?
  {
    assert forall n :: 0 <= n < |es| - 1 ==> es[..|es| - 1][n] == es[n];
  }

  /** Nothing is collected exactly when no entry matches. */
  lemma {:induction false} TokensEmptyIff(s: string, es: seq<AudioEntry>)
    ensures |LanguageTokens(s, es)| + |OtherTokens(s, es)| == 0 <==> NoEntryMatches(s, es)
    decreases |es|
  {
    if |es| > 0 {
      var last := es[|es| - 1];
      var init := es[..|es| - 1];
      TokensEmptyIff(s, init);
      HitsEmptyIff(last, s);
      NoEntryMatchesSnoc(s, es);
    }
  }

  /** An entry adds nothing exactly when it does not match. */
  lemma HitsEmptyIff(e: AudioEntry, s: string)
    ensures |LanguageHit(e, s)| + |OtherHit(e, s)| == 0 <==> EntryMatch(e, s).None?
  {
  }

  predicate AllNoLowercase(ts: seq<string>) {
    forall j :: 0 <= j < |ts| ==> NoLowercase(ts[j])
  }

  /** Every collected token is in upper case. */
  lemma {:induction false} TokensNoLowercase(s: string, es: seq<AudioEntry>)
    ensures AllNoLowercase(LanguageTokens(s, es)) && AllNoLowercase(OtherTokens(s, es))
    decreases |es|
  {
    if |es| > 0 {
      TokensNoLowercase(s, es[..|es| - 1]);
      var e := es[|es| - 1];
      var m := EntryMatch(e, s);
      if m.Some? {
        UpperStrNoLowercase(RemoveSpaces(m.value));
        UpperStrNoLowercase(e.key);
      }
    }
  }

  lemma CollectedNoLowercase(langs: seq<string>, others: seq<string>)
    requires AllNoLowercase(langs) && AllNoLowercase(others)
    ensures forall t :: t in Dedupe(Reverse(langs) + others) ==> NoLowercase(t)
  {
    var all := Reverse(langs) + others;
    forall k | 0 <= k < |all|
      ensures NoLowercase(all[k])
    {
      if k < |langs| {
        assert all[k] == langs[|langs| - 1 - k];
      } else {
        assert all[k] == others[k - |langs|];
      }
    }
    MembersNoLowercase(all);
  }

  lemma MembersNoLowercase(xs: seq<string>)
    requires AllNoLowercase(xs)
    ensures forall t :: t in Dedupe(xs) ==> NoLowercase(t)
  {
    forall t | t in Dedupe(xs)
      ensures NoLowercase(t)
    {
      var k :| 0 <= k < |xs| && xs[k] == t;
    }
  }



  lemma UpperCaseIsNotUnknown(x: string)
    requires NoLowercase(x)
    ensures x != "Unknown"
  {
    assert "Unknown"[1] == 'n';
  }

  lemma {:induction false} JoinNoLowercase(ts: seq<string>)
    requires forall t :: t in ts ==> NoLowercase(t)
    ensures NoLowercase(Join(" ", ts))
    decreases |ts|
  {
    if |ts| > 1 {
      JoinNoLowercase(ts[1..]);
      assert ts[0] in ts;
    } else if |ts| == 1 {
      assert ts[0] in ts;
    }
  }

  /** Dropping duplicates from a longer list keeps the result for its prefix as a prefix. */
  lemma {:induction false} DedupePrefix(a: seq<string>, b: seq<string>)
    ensures Dedupe(a) <= Dedupe(a + b)
    decreases |b|
  {
    if |b| == 0 {
      assert a + b == a;
    } else {
      var b' := b[..|b| - 1];
      DedupePrefix(a, b');
      assert (a + b)[..|a + b| - 1] == a + b';
    }
  }

  /** A list without repeats is left as it is. */
  lemma {:induction false} DedupeDistinct(xs: seq<string>)
    requires NoDuplicates(xs)
    ensures Dedupe(xs) == xs
    decreases |xs|
  {
    if |xs| > 0 {
      var init := xs[..|xs| - 1];
      assert NoDuplicates(init);
      DedupeDistinct(init);
      assert xs[|xs| - 1] !in init;
      assert xs == init + [xs[|xs| - 1]];
    }
  }

  lemma {:induction false} LanguageTokensAppend(s: string, a: seq<AudioEntry>, b: seq<AudioEntry>)
    ensures LanguageTokens(s, a + b) == LanguageTokens(s, a) + LanguageTokens(s, b)
    decreases |b|
  {
    if |b| == 0 {
      assert a + b == a;
    } else {
      var init, last := b[..|b| - 1], b[|b| - 1];
      LanguageTokensAppend(s, a, init);
      DropLastOfConcat(a, b);
      assert (a + b)[|a + b| - 1] == last;
      var la, li, h := LanguageTokens(s, a), LanguageTokens(s, init), LanguageHit(last, s);
      assert LanguageTokens(s, a + b) == (la + li) + h;
      assert LanguageTokens(s, b) == li + h;
      assert (la + li) + h == la + (li + h);
    }
  }

  lemma DropLastOfConcat<T>(a: seq<T>, b: seq<T>)
    requires |b| > 0
    ensures (a + b)[..|a + b| - 1] == a + b[..|b| - 1]
  {
  }


  lemma {:induction false} NoLanguageTokens(s: string, es: seq<AudioEntry>)
    requires forall e :: e in es ==> !IsLanguageKey(e.key)
    ensures LanguageTokens(s, es) == []
    decreases |es|
  {
    if |es| > 0 {
      assert es[|es| - 1] in es;
      assert forall e :: e in es[..|es| - 1] ==> e in es;
      NoLanguageTokens(s, es[..|es| - 1]);
    }
  }

  lemma OtherKeysAreNotLanguages()
    ensures forall e :: e in OtherPatterns ==> !IsLanguageKey(e.key)
  {
    forall n | 0 <= n < |OtherPatterns| ensures !IsLanguageKey(OtherPatterns[n].key) {
      if n < 8 {
        OtherKeysFirstHalf(n);
      } else {
        OtherKeysSecondHalf(n);
      }
    }
  }

  lemma OtherKeysFirstHalf(n: nat)
    requires n < 8
    ensures !IsLanguageKey(OtherPatterns[n].key)
  {
    assert OtherPatterns[n].key in [ComboKey, "aac", "ac3", "dts", "mp3", "flac", "opus", "vorbis"];
  }

  lemma OtherKeysSecondHalf(n: nat)
    requires 8 <= n < |OtherPatterns|
    ensures !IsLanguageKey(OtherPatterns[n].key)
  {
    assert OtherPatterns[n].key in ["2.0", "5.1", "7.1", "mono", "hq", "lq", "dolby", "atmos"];
  }

  /** The languages found are exactly those among the first six entries. */
  lemma LanguagesFromFirstSix(s: string)
    ensures LanguageTokens(s, AudioPatterns) == LanguageTokens(s, LanguagePatterns)
  {
    OtherKeysAreNotLanguages();
    NoLanguageTokens(s, OtherPatterns);
    LanguageTokensAppend(s, LanguagePatterns, OtherPatterns);
  }

  /** Languages, "DUAL" and "MULTI" lead the answer, before every codec, channel or quality
      token: the deduplicated list starts with the deduplicated language hits. */
  lemma LanguagesLead(s: string)
    ensures Dedupe(Reverse(LanguageTokens(s, AudioPatterns))) <= Dedupe(AudioTokens(s))
  {
    DedupePrefix(Reverse(LanguageTokens(s, AudioPatterns)), OtherTokens(s, AudioPatterns));
  }

  /** "DUAL" is inserted at the front last among the languages, so when it is mentioned it is
      the first token of the answer. */
  lemma DualComesFirst(s: string)
    requires EntryMatch(LanguagePatterns[5], s).Some?
    ensures |Dedupe(AudioTokens(s))| > 0 && Dedupe(AudioTokens(s))[0] == "DUAL"
  {
    LanguagesFromFirstSix(s);
    var e := LanguagePatterns[5];
    assert e.key == "dual";
    assert IsLanguageKey("dual");
    LastLanguageLeads(s, LanguagePatterns, OtherTokens(s, AudioPatterns));
    UpperDual();
  }

  lemma UpperDual()
    ensures UpperStr("dual") == "DUAL"
  {
  }


  /** A matching language entry at the end of `es` leads the collected list. */
  lemma LastLanguageLeads(s: string, es: seq<AudioEntry>, others: seq<string>)
    requires |es| > 0 && EntryMatch(es[|es| - 1], s).Some?
    requires es[|es| - 1].key != ComboKey && IsLanguageKey(es[|es| - 1].key)
    ensures |Dedupe(Reverse(LanguageTokens(s, es)) + others)| > 0
    ensures Dedupe(Reverse(LanguageTokens(s, es)) + others)[0] == UpperStr(es[|es| - 1].key)
  {
    var l := LanguageTokens(s, es);
    assert LanguageHit(es[|es| - 1], s) == [UpperStr(es[|es| - 1].key)];
    assert l[|l| - 1] == UpperStr(es[|es| - 1].key);
    assert (Reverse(l) + others)[0] == Reverse(l)[0];
  }



}
