# Auto-rename bot: file-name logic

This project is a Dafny model of the renaming core of a Telegram bot. A user sends the bot video,
audio or document files. The bot gives each file a new name built from the user's format
template, for example `[SSeason-EP{episode}] Naruto [quality] [audio]`.

- **Extractors.** They read the episode number, the season number, the audio description and
  the video quality out of the original file name. Each is an ordered list of regular
  expressions, and the first one that matches decides.
- **Template rewriter.** The rendered name comes from a fixed chain of passes:
  1. episode placeholders;
  2. season placeholders;
  3. quality placeholders;
  4. audio placeholders;
  5. the `[SSeason-EP…]` block;
  6. a clean-up of brackets, spaces and separators;
  7. the original file's extension appended.

  The media type ("video", "audio", or the user's preference) follows from the extension.
- **In-flight table.** It maps file ids to the time renaming started. A file that is delivered
  again within 10 seconds is not renamed twice.
- **Sequence buffer.** It holds a user's files until the user ends the sequence. The files are
  then handed on in episode order.
- **Keyword filter.** It may refuse a file name. An exception list takes precedence.

The model keeps the code's behaviour as written:

- 999 means "no episode" and season 1 means "no season".
- The bare word `episode` is replaced before `{episode}`, so the braces survive around the
  number.
- The trailing-strip class `[ -_.]` is a character range. It strips digits, capital letters and
  `]` from the end of the name.
- The duplicate check reads `timedelta.seconds`, which forgets whole days.

Modules:

| module | file | contents |
|---|---|---|
| `Text` | `text.dfy` | Python's character classes, case folding, `int()`, `str()`, `zfill` and `strip`. |
| `Regex` | `regex.dfy` | `re.search` and `re.sub` over matcher functions. `re.search` is the leftmost match. `re.sub` is one left-to-right pass that never rescans its own output. |
| `Extract` | `extract.dfy` | `extract_episode_number`, `extract_season_number`, `extract_quality`, `detect_quality`. |
| `Audio` | `audio.dfy` | `extract_audio_info`: the collecting loop as a method, proved against a specification by functions. |
| `AntiNsfw` | `nsfw.dfy` | `check_anti_nsfw`. |
| `Rewrite` | `rewrite.dfy` | The template passes as functions, and as methods that reassign the template step by step. Also the clean-up, `os.path.splitext` and the media type. |
| `Orchestrator` | `orchestrator.dfy` | The decision part of renaming one file, the episode sort, and the class `RenameState`. Its map fields stand for `renaming_operations`, `active_sequences` and `message_ids`. |

## Model

| member | source | states |
|---|---|---|
| Extract.ExtractEpisodeNumber | plugins/file_rename.py:37-55 | The episode is either the sentinel 999 or the value of a run of digits that occurs in the name. |
| Extract.EpisodeWithoutDigitsIs999 | plugins/file_rename.py:37-55 | A file name without a digit gets the "no episode" value 999. |
| Extract.EpisodeOfSeasonEpisodeToken | plugins/file_rename.py:39-49 | At the name's first `S<n>E<m>` or `S<n>EP<m>` token (capital letters, whole digit runs), the episode is `m`, whatever comes before or after: the first pattern decides, and its last group is returned. |
| Extract.ExtractSeasonNumber | plugins/file_rename.py:57-74 | The season is never below 1: a parsed 0 and "no pattern matched" both give 1. Any other season is the value of a run of digits that occurs in the name. |
| Extract.SeasonWithoutDigitsIsOne | plugins/file_rename.py:57-74 | A file name without a digit is season 1. |
| Extract.SeasonOfSeasonEpisodeToken | plugins/file_rename.py:60-72 | At the name's first season token (`s` or `S`, a whole digit run `n`, then `E`, `e` or whitespace), the season is `n`, or 1 when `n` is 0, whatever comes before or after. |
| Extract.Pattern5Quality | plugins/file_rename.py:140-150 | `pattern5` yields a result exactly when it matches. The result is lower case, starts with three or four digits (never five) and ends in `p`. |
| Extract.BracketedTokenIffContains | plugins/file_rename.py:141-145 | A bracketed-token pattern (`4k`, `2k`, `4kX264`, `4kx265`) matches exactly when the token occurs in the name in any letter case. |
| Extract.HdRipIffContains | plugins/file_rename.py:143 | The `HdRip` pattern matches exactly when "hdrip" occurs in any letter case. |
| Extract.FixedQualityLabelCases | plugins/file_rename.py:151-166 | Each fixed label is returned exactly when its token occurs and no earlier token does. "4kX264" and "4kx265" are unreachable, because "4k" is tested first. |
| Extract.ExtractQualityCases | plugins/file_rename.py:147-166 | "Unknown" is returned exactly when no quality pattern matches. A `pattern5` hit is lower case, starts with three or four digits and ends in `p`. The result is never "4kX264" or "4kx265". |
| Extract.DetectQuality | plugins/file_rename.py:32-35 | The rank is between 1 and 4. It is 4 exactly when none of 480p, 720p, 1080p occurs, and ranks 1, 2, 3 each name a quality that occurs. |
| Audio.AltWordsAt | plugins/file_rename.py:79-101 | An alternation of whole words `\b(?:A\|B\|…)\b` matches at a position exactly when one alternative stands there as a whole word in any letter case. The first such alternative decides where the match ends. |
| Audio.RemoveSpaces | plugins/file_rename.py:109 | `replace(' ', '')` leaves no space, and keeps every other character, in order and as often as it occurs. |
| Audio.CollectAudio | plugins/file_rename.py:103-113 | The loop leaves the matched language tokens in reverse table order, followed by the other tokens in table order. |
| Audio.Dedupe | plugins/file_rename.py:115 | The result has no duplicates, has the same members as its input and keeps the input's first element first. |
| Audio.DedupeDistinct | plugins/file_rename.py:115 | A list without duplicates is left unchanged. |
| Audio.ExtractAudioInfo | plugins/file_rename.py:76-120 | "Unknown" is returned exactly when no audio pattern matches. Otherwise the result is the collected tokens, first occurrences only, joined by single spaces. |
| Audio.AudioTokensFacts | plugins/file_rename.py:103-120 | Nothing is collected exactly when nothing matches, and every collected token is upper case. |
| Audio.LanguagesFromFirstSix | plugins/file_rename.py:79-111 | Only the first six entries (the languages, DUAL and MULTI) put tokens at the front of the list. |
| Audio.LanguagesLead | plugins/file_rename.py:108-115 | The language, DUAL and MULTI tokens come before every codec, channel and quality token in the answer. |
| Audio.DualComesFirst | plugins/file_rename.py:84-111 | When "dual" is mentioned, "DUAL" is the first token of the answer, ahead of earlier-listed languages, because of `insert(0, …)`. |
| AntiNsfw.CheckAntiNsfwWith | plugins/antinsfw.py:6-17 | A name is refused exactly when no exception keyword and some category keyword occur in it, both compared in lower case. |
| AntiNsfw.CheckAntiNsfw | plugins/antinsfw.py:1-17 | With the shipped empty keyword table, no name is refused. |
| AntiNsfw.ExceptionNamesNeverRejected | plugins/antinsfw.py:4-10 | A name containing "nxivm", "classroom", "assassination" or "geass" in any letter case is never refused, whatever the keyword table. |
| Rewrite.ReplaceFirst | plugins/file_rename.py:305-306 | `str.replace(p, v, 1)` replaces exactly the leftmost occurrence of `p`, and leaves a string without `p` as it is. |
| Rewrite.ReplaceEach | plugins/file_rename.py:305-306 | The placeholder loop replaces the first occurrence of each spelling in turn. |
| Rewrite.ApplyEpisode | plugins/file_rename.py:303-310 | The episode pass. It reassigns the template step by step and gives the pass that the lemmas below are about. |
| Rewrite.ApplySeason | plugins/file_rename.py:313-319 | The season pass, in the same way. |
| Rewrite.EpisodeBraceKept | plugins/file_rename.py:303-310 | With a usable episode, `{episode}` anywhere in a template becomes `{NN}` and the rest is unchanged: the bare word is replaced first, so the braces stay. |
| Rewrite.SeasonBraceKept | plugins/file_rename.py:313-319 | With a usable season, `{season}` anywhere in a template becomes `{NN}` and the rest is unchanged, for the same reason. |
| Rewrite.InvalidEpisodeOnlyDeletes | plugins/file_rename.py:307-310 | With episode 0 or 999, the episode pass only removes characters from the template. |
| Rewrite.InvalidSeasonOnlyDeletes | plugins/file_rename.py:317-319 | With season 0 or 1, the season pass only removes characters. |
| Rewrite.ApplyQuality | plugins/file_rename.py:322-338 | The quality pass over the four spellings. |
| Rewrite.ApplyQualityOver | plugins/file_rename.py:325-338 | The quality loop: the bracketed form, then the bare form, of each spelling in turn. |
| Rewrite.UnknownQualityOnlyDeletes | plugins/file_rename.py:325-338 | With quality "Unknown", the quality pass only removes characters: `[quality]` goes with its brackets. |
| Rewrite.QualityFillsPlaceholder | plugins/file_rename.py:322-338 | `[quality]` anywhere in a template is replaced together with its brackets: by `[<quality>]` for a known quality and by nothing for "Unknown". The text around it is unchanged. |
| Rewrite.QualityPassWithoutPlaceholder | plugins/file_rename.py:325-338 | A template with no "quality" in any letter case is left unchanged. |
| Rewrite.QualityPassWithFlagsRaises | plugins/file_rename.py:325-334 | Passing flags along with the compiled pattern makes the quality loop raise at its first spelling. |
| Rewrite.QualityPassAsWrittenRaises | plugins/file_rename.py:333-334 | The quality pass as written raises `ValueError` for every template and quality. |
| Rewrite.QualityPassWithoutFlags | plugins/file_rename.py:325-338 | Without the flags argument, the loop completes and gives the corrected quality pass. |
| Rewrite.ApplyAudio | plugins/file_rename.py:340-346 | The audio pass: `[audio]`, `{audio}`, then the bare word. |
| Rewrite.UnknownAudioOnlyDeletes | plugins/file_rename.py:340-346 | With an empty or "Unknown" description, the audio pass only removes characters: `[audio]` goes with its brackets. |
| Rewrite.AudioFillsPlaceholder | plugins/file_rename.py:340-346 | `[audio]` anywhere in a template is replaced together with its brackets: by `[<description>]` for a known description and by nothing for an empty or "Unknown" one. The text around it is unchanged. |
| Rewrite.AudioPassWithoutPlaceholder | plugins/file_rename.py:344-346 | A template with no "audio" in any letter case is left unchanged. |
| Rewrite.BlockParts | plugins/file_rename.py:349-353 | The block has one part per usable number. The season part comes first and the episode part last, each zero-padded. |
| Rewrite.SeasonEpisodeBlock | plugins/file_rename.py:355-357 | The block is empty exactly when neither number is usable. |
| Rewrite.SeasonEpisodeBlockShape | plugins/file_rename.py:349-357 | The three shapes of the block: `[Snn-EPmm]`, `[Snn]` and `[EPmm]`. |
| Rewrite.ApplyBlock | plugins/file_rename.py:349-361 | The `[SSeason-EP…]`, `[SSeason]` and `[EP…]` replacements. |
| Rewrite.BlockFillsPlaceholder | plugins/file_rename.py:349-361 | With a usable season or episode, `[SSeason-EP]` anywhere in a template becomes the block (`[Snn-EPmm]`, `[Snn]` or `[EPmm]`) and the text around it is unchanged. |
| Rewrite.NoNumbersBlockOnlyDeletes | plugins/file_rename.py:359-361 | With neither number usable, the block pass only removes characters. |
| Rewrite.Cleanup | plugins/file_rename.py:365-368 | The cleaned stem has only single plain spaces and no space next to `-`. It does not start with a separator, and its last character is neither `.` nor in the range ' '..'_'. |
| Rewrite.ApplyCleanup | plugins/file_rename.py:365-368 | The four clean-up steps, one reassignment each. |
| Rewrite.CleanupKeepsCleanStem | plugins/file_rename.py:365-368 | A clean stem without `[]` is left unchanged by the clean-up. |
| Rewrite.CleanupIdempotent | plugins/file_rename.py:365-368 | Cleaning twice equals cleaning once, unless the first clean-up brought a `[` and a `]` together. |
| Rewrite.CleanupCutsTrailingRun | plugins/file_rename.py:367 | A clean stem followed by a run of characters from ' '..'_' loses the whole run, digits included. |
| Rewrite.TrailingNumberIsCut | plugins/file_rename.py:367 | "Naruto 05" is cleaned to "Naruto": the episode number is cut off. |
| Rewrite.SplitExt | plugins/file_rename.py:370 | `os.path.splitext`: stem and extension concatenate to the path. The extension is empty, or is a `.` followed by no further `.` or `/`. A non-empty extension follows a last path component that has a character other than `.`. |
| Rewrite.SplitExtFindsExtension | plugins/file_rename.py:370 | The converse of `SplitExt`: a name made of a stem and a final `.` suffix without further `.` or `/` splits back into exactly that stem and suffix, when the stem's last path component has a character other than `.`. |
| Rewrite.MediaTypeFollowsExtension | plugins/file_rename.py:279-283 | A file whose extension, as `os.path.splitext` finds it, is a video extension in any letter case is a "video", whatever the preference. One with an audio extension is an "audio". |
| Rewrite.MediaTypeIgnoresCase | plugins/file_rename.py:280-283 | Upper-casing the file name does not change the media type. |
| Rewrite.NothingKnownOnlyDeletes | plugins/file_rename.py:303-361 | When nothing usable was extracted, all passes before the clean-up only remove characters from the template. |
| Rewrite.RenderName | plugins/file_rename.py:300-371 | The rendered stem is clean, and the new name is the stem followed by the original file's extension. |
| Orchestrator.ElapsedSeconds | plugins/file_rename.py:263 | `timedelta.seconds` lies in 0..86399 and equals the difference when the difference is under a day. |
| Orchestrator.Register | plugins/file_rename.py:267 | After registering, the file maps to `now` and every other entry is unchanged. |
| Orchestrator.ReleaseUndoesRegister | plugins/file_rename.py:267-276 | Deleting the entry after registering it leaves the other entries as they were. |
| Orchestrator.RegisteredFileIsDuplicate | plugins/file_rename.py:262-266 | A file delivered again within 10 seconds is a duplicate. |
| Orchestrator.DuplicateAfterWholeDays | plugins/file_rename.py:263-264 | A file registered whole days plus a few seconds ago still counts as a duplicate. |
| Orchestrator.EarlierClockIsNotDuplicate | plugins/file_rename.py:263-264 | If the clock went back, the negative difference reads as nearly a day, and the file is not a duplicate. |
| Orchestrator.RenderedName | plugins/file_rename.py:291-371 | The name for a file: the extractors' results rendered into the template, with a clean stem and the original extension. |
| Orchestrator.RenderFile | plugins/file_rename.py:291-371 | Runs the extractors and the rewriter and gives `RenderedName`. |
| Orchestrator.PlanRename | plugins/file_rename.py:269-371 | No template leads to the no-template exit. Otherwise a refused name leads to the NSFW exit. Otherwise the file is renamed with a clean stem and its own extension. |
| Orchestrator.ShippedTableNeverRejects | plugins/file_rename.py:285-289 | With the shipped keyword table, a file with a template is always renamed. |
| Orchestrator.SortByEpisodeCorrect | plugins/file_rename.py:524 | The sorted buffer is ordered by episode and is a permutation of the buffer. Files with equal episode numbers keep their arrival order. |
| Orchestrator.FileInfoOf | plugins/file_rename.py:490-495 | The entry's name is never empty, and its episode is the one extracted from that name. |
| Orchestrator.NamelessFileHasNoEpisode | plugins/file_rename.py:492-494 | A nameless file has episode 999. |
| Orchestrator.RenameState.constructor | plugins/file_rename.py:17-20 | All tables start empty. |
| Orchestrator.RenameState.Admit | plugins/file_rename.py:262-267 | A recent duplicate is refused and the table is unchanged. Otherwise the file is registered at `now`. |
| Orchestrator.RenameState.Release | plugins/file_rename.py:472-473 | The file's entry is deleted and nothing else changes. |
| Orchestrator.RenameState.RenameFile | plugins/file_rename.py:262-289 | A duplicate is skipped and changes nothing. Any other file gets `PlanRename`'s outcome, and its entry is gone at the end. |
| Orchestrator.RenameState.ReceiveFile | plugins/file_rename.py:490-506 | During a sequence, exactly one entry is appended to the user's buffer and one id to the user's message list. If the message list is missing, the file is buffered and `KeyError` follows. Without a sequence, the file is dispatched at once. |
| Orchestrator.RenameState.EndSequence | plugins/file_rename.py:510-532 | Without a sequence, nothing changes. Otherwise both of the user's entries are removed, and the buffer is dispatched sorted by episode. |

## Left out

- Downloading, FFmpeg metadata, thumbnails, uploading and temporary-file removal
  (plugins/file_rename.py:168-248, 373-470) are network, subprocess and file-system work.
  `RenameFile` stops at the rendered name and media type. It releases the in-flight entry where
  the `finally` block would.
- `generate_unique_paths` is not part of this model, because it creates directories and draws a
  random id.
- Captions (`str.format`, `humanbytes`, `convert`) are not part of this model. They live in
  `helper/utils`.
- The database calls are not modelled. The format template and the media preference are
  parameters.
- Telegram replies, the reply sent inside `check_anti_nsfw` and the `print` logging are left
  out.
- Semaphores, the thread pool, `asyncio.create_task` and `gather` are left out. `EndSequence`
  records the order in which tasks are created, as the list `dispatched`.
- `datetime.now()` is a parameter in whole seconds. The sub-second part of a `timedelta` is not
  modelled.
- `\d`, `\w`, `\b`, `re.IGNORECASE`, `lower()` and `upper()` are modelled on ASCII only. Python
  also applies them to other Unicode letters and digits. `\s` and `strip()` use Python's full
  whitespace set.
- `re.sub` replacement escapes are not modelled: the replacement text is inserted literally. A
  quality or audio value containing a backslash would be read as a template by Python.
- As written, plugins/file_rename.py does not parse:
  - line 1 starts with a space;
  - the `try:` at line 261 has neither `except` nor `finally`.

  The model follows the evident intent: the steps run in order. `RenameFile` deletes the
  in-flight entry when it is done, as the `finally` block at lines 472-473 does after a rename.
  That block belongs to the inner `try` at line 381. The outer `try` has no handler.
- No handler in plugins/file_rename.py adds a user to `active_sequences`, so opening a sequence
  is not part of this model. `RenameState` starts empty, and its methods work on any state they
  are given.
- A nameless file is filed under the name "Unknown" (line 492). That name has no digit, so its
  episode is 999, and the sort at line 524 orders it by that number like any other file. It
  comes before a file whose extracted number is above 999.
- The NSFW keyword table is a parameter of `PlanRename` and `RenameFile`. `CheckAntiNsfw` uses
  the shipped, empty table.
- Extract.DetectQuality: states that the rank names a quality the name contains, not that this
  quality is the leftmost of the three.
- Rewrite.InvalidEpisodeOnlyDeletes: states that the pass only removes characters, not that no
  `{episode}` is left. Removing one can bring a new one together, as in `{epi{episode}sode}`.
- Rewrite.InvalidSeasonOnlyDeletes: states only that the pass removes characters, for the same
  reason as the episode pass.
- Rewrite.QualityFillsPlaceholder: covers a template with no other "quality" in any letter
  case, before or after the filling. Other spellings are replaced too, and a quality value that
  contains "quality" is itself rewritten by the later steps.
- Rewrite.AudioFillsPlaceholder: covers a template with no other "audio" in any letter case,
  before or after the filling, for the same reason.
- Rewrite.EpisodeBraceKept: covers a template with no other "episode" in any letter case.
  Every other spelling is replaced once, and the first occurrence may lie elsewhere.
- Rewrite.SeasonBraceKept: covers a template with no other "season" in any letter case, for the
  same reason.
- Rewrite.BlockFillsPlaceholder: covers a template whose only `[SSeason` and `[EP` is the
  placeholder, and a usable number. With no usable number,
  Rewrite.NoNumbersBlockOnlyDeletes states what the pass does.
- Rewrite.RenderName: renders with the corrected quality pass of Rewrite.QualityPassWithoutFlags.
  As written, line 334 raises `ValueError`, and no name is rendered.
- Orchestrator.RenderedName: uses the corrected quality pass. As written, line 334 raises.
- Orchestrator.RenderFile: uses the corrected quality pass. As written, line 334 raises.
- Orchestrator.PlanRename: its rename outcome uses the corrected quality pass. As written, every
  file that has a template and is not refused ends in the `ValueError` of line 334.
- Orchestrator.RenameState.RenameFile: uses the corrected quality pass and deletes the in-flight
  entry at the end. As written, the `ValueError` of line 334 is raised before the inner `try` at
  line 381. So no file is renamed, and the entry registered at line 267 is not deleted at lines
  472-473.

## Findings

| source | as written | input that shows it | evidently intended | confidence | as-written member | corrected member |
|---|---|---|---|---|---|---|
| plugins/file_rename.py:334 | `re.search(non_bracketed_pattern, template, re.IGNORECASE)` passes a flags argument along with a pattern compiled at line 333. Python's `re` refuses this with `ValueError`. | Any file with any template: the loop reaches line 334 on its first spelling, "quality". | Search with the compiled pattern, which already ignores case, and pass no flags. | high; not executed | Rewrite.QualityPassAsWrittenRaises | Rewrite.QualityPassWithoutFlags |
