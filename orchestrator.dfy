/** The renamer's in-memory state: the table of files being renamed (so that a file delivered
    twice in quick succession is renamed once) and the per-user sequence buffers that hold
    files until the user ends the sequence, then hand them on in episode order. */
module Orchestrator {
  import opened Text
  import opened Regex
  import Extract
  import Audio
  import AntiNsfw
  import Rewrite

  /** What the renamer keeps about one received file (`file_info`); the chat message it came
      in is kept by its id. */
  datatype FileInfo = FileInfo(fileId: string, fileName: string, messageId: int, episodeNum: nat)

  // ---------------------------------------------------------------------------------------
  // In-flight table
  // ---------------------------------------------------------------------------------------

  /** A file registered fewer seconds ago than this is not renamed again. */
  const DuplicateWindow: int := 10

  const SecondsPerDay: int := 86400

  /** `(now - registered).seconds` for times in whole seconds: a `timedelta` keeps whole days apart,
      so only the seconds within the last day are left, and a negative difference counts
      from the day before. */
  function ElapsedSeconds(now: int, registered: int): (r: int)
    ensures 0 <= r < SecondsPerDay
    ensures 0 <= now - registered < SecondsPerDay ==> r == now - registered
  {
    (now - registered) % SecondsPerDay
  }

  /** The file is in the table and was registered less than `DuplicateWindow` seconds ago, as
      `timedelta.seconds` counts them. */
  predicate IsRecentDuplicate(table: map<string, int>, fileId: string, now: int) {
    fileId in table && ElapsedSeconds(now, table[fileId]) < DuplicateWindow
  }

  /** The table after a file is admitted for renaming at time `now`. */
  function Register(table: map<string, int>, fileId: string, now: int): (r: map<string, int>)
    ensures fileId in r && r[fileId] == now && r.Keys == table.Keys + {fileId}
    ensures forall f :: f in table && f != fileId ==> r[f] == table[f]
  {
    table[fileId := now]
  }

  /** Releasing a file after registering it leaves the rest of the table as it was. */
  lemma ReleaseUndoesRegister(table: map<string, int>, fileId: string, now: int)
    ensures Register(table, fileId, now) - {fileId} == table - {fileId}
  {
    var a, b := Register(table, fileId, now) - {fileId}, table - {fileId};
    assert a.Keys == b.Keys;
    assert forall f :: f in a ==> a[f] == b[f];
  }

  /** A second delivery of the same file within the window is recognised as a duplicate. */
  lemma RegisteredFileIsDuplicate(table: map<string, int>, fileId: string, registered: int, now: int)
    requires 0 <= now - registered < DuplicateWindow
    ensures IsRecentDuplicate(Register(table, fileId, registered), fileId, now)
  {
  }

  /** `timedelta.seconds` forgets whole days: a file registered a day and a few seconds
      earlier still counts as a duplicate. */
  lemma DuplicateAfterWholeDays(table: map<string, int>, fileId: string, registered: int, days: nat, extra: int)
    requires 0 <= extra < DuplicateWindow
    ensures IsRecentDuplicate(Register(table, fileId, registered), fileId, registered + days * SecondsPerDay + extra)
  {
    var now := registered + days * SecondsPerDay + extra;
    assert (now - registered) % SecondsPerDay == extra by {
      assert now - registered == days * SecondsPerDay + extra;
    }
  }

  /** A clock that went back by up to a day makes the difference negative, and `timedelta`
      then reports nearly a whole day: the file is not a duplicate. */
  lemma EarlierClockIsNotDuplicate(table: map<string, int>, fileId: string, registered: int, back: int)
    requires 0 < back <= SecondsPerDay - DuplicateWindow
    ensures !IsRecentDuplicate(Register(table, fileId, registered), fileId, registered - back)
  {
    assert (-back) % SecondsPerDay == SecondsPerDay - back;
  }

  // ---------------------------------------------------------------------------------------
  // Renaming one file
  // ---------------------------------------------------------------------------------------

  /** How renaming one file ends. */
  datatype RenameOutcome =
    | SkippedDuplicate
    | NoTemplate
    | NsfwRejected
    | Renamed(stem: string, newName: string, mediaType: string)

  /** The audio description the extractor returns for a file name. */
  function AudioInfoOf(fileName: string): string {
    if Audio.NoAudioHit(fileName) then "Unknown" else Join(" ", Audio.Dedupe(Audio.AudioTokens(fileName)))
  }

  /** The stem and the new name for a file: its extracted attributes put into the template,
      then the file's extension. */
  function RenderedName(fileName: string, formatTemplate: string): (r: (string, string))
    ensures Rewrite.CleanStem(r.0) && r.1 == r.0 + Rewrite.SplitExt(fileName).1
  {
    var stem := Rewrite.RenderedStem(formatTemplate, Extract.ExtractEpisodeNumber(fileName),
                                     Extract.ExtractSeasonNumber(fileName), AudioInfoOf(fileName),
                                     Extract.ExtractQuality(fileName));
    (stem, stem + Rewrite.SplitExt(fileName).1)
  }

  /** Runs the extractors on the file name and renders the template with what they found. */
  method RenderFile(fileName: string, formatTemplate: string) returns (stem: string, newName: string)
    ensures (stem, newName) == RenderedName(fileName, formatTemplate)
  {
    var episode := Extract.ExtractEpisodeNumber(fileName);
    var season := Extract.ExtractSeasonNumber(fileName);
    var audio := Audio.ExtractAudioInfo(fileName);
    var quality := Extract.ExtractQuality(fileName);
    assert audio == AudioInfoOf(fileName);
    stem, newName := Rewrite.RenderName(formatTemplate, fileName, episode, season, audio, quality);
  }

  /** What renaming a file that is not a duplicate leads to: no template set, a rejected
      name, or the rendered name. */
  function PlanRename(fileName: string, formatTemplate: Option<string>, mediaPreference: Option<string>,
                      nsfwKeywords: seq<(string, seq<string>)>): (r: RenameOutcome)
    ensures r.NoTemplate? <==> formatTemplate.None? || formatTemplate.value == ""
    ensures r.NsfwRejected? <==>
              formatTemplate.Some? && formatTemplate.value != ""
              && AntiNsfw.CheckAntiNsfwWith(fileName, nsfwKeywords, AntiNsfw.ExceptionKeywords)
    ensures r.Renamed? ==> Rewrite.CleanStem(r.stem) && r.newName == r.stem + Rewrite.SplitExt(fileName).1
    ensures !r.SkippedDuplicate?
  {
    if formatTemplate.None? || formatTemplate.value == "" then NoTemplate
    else if AntiNsfw.CheckAntiNsfwWith(fileName, nsfwKeywords, AntiNsfw.ExceptionKeywords) then NsfwRejected
    else
      var name := RenderedName(fileName, formatTemplate.value);
      Renamed(name.0, name.1, Rewrite.MediaType(fileName, mediaPreference))
  }

  /** With the keyword table as shipped (empty), a file with a template is always renamed. */
  lemma ShippedTableNeverRejects(fileName: string, formatTemplate: string, mediaPreference: Option<string>)
    requires formatTemplate != ""
    ensures PlanRename(fileName, Some(formatTemplate), mediaPreference, AntiNsfw.NsfwKeywords).Renamed?
  {
    assert !AntiNsfw.CheckAntiNsfw(fileName);
  }

  // ---------------------------------------------------------------------------------------
  // Sequence order
  // ---------------------------------------------------------------------------------------

  predicate SortedByEpisode(xs: seq<FileInfo>) {
    forall i, j :: 0 <= i < j < |xs| ==> xs[i].episodeNum <= xs[j].episodeNum
  }

  /** Inserts `x` after every entry whose episode is not greater than its own. */
  function InsertByEpisode(xs: seq<FileInfo>, x: FileInfo): (r: seq<FileInfo>)
    decreases |xs|
  {
    if |xs| == 0 then [x]
    else if xs[|xs| - 1].episodeNum <= x.episodeNum then xs + [x]
    else InsertByEpisode(xs[..|xs| - 1], x) + [xs[|xs| - 1]]
  }

  /** `list.sort(key=lambda x: x["episode_num"])`: a stable sort by episode number. */
  function SortByEpisode(xs: seq<FileInfo>): seq<FileInfo>
    decreases |xs|
  {
    if |xs| == 0 then [] else InsertByEpisode(SortByEpisode(xs[..|xs| - 1]), xs[|xs| - 1])
  }

  /** The entries of `xs` with episode number `n`, in their order. */
  function WithEpisode(xs: seq<FileInfo>, n: nat): seq<FileInfo>
    decreases |xs|
  {
    if |xs| == 0 then []
    else WithEpisode(xs[..|xs| - 1], n) + (if xs[|xs| - 1].episodeNum == n then [xs[|xs| - 1]] else [])
  }

  lemma {:induction false} WithEpisodeAppend(a: seq<FileInfo>, b: seq<FileInfo>, n: nat)
    ensures WithEpisode(a + b, n) == WithEpisode(a, n) + WithEpisode(b, n)
    decreases |b|
  {
    if |b| > 0 {
      assert (a + b)[..|a + b| - 1] == a + b[..|b| - 1];
      WithEpisodeAppend(a, b[..|b| - 1], n);
    } else {
      assert a + b == a;
    }
  }

  /** Inserting adds exactly the one entry. */
  lemma {:induction false} InsertPermutes(xs: seq<FileInfo>, x: FileInfo)
    ensures multiset(InsertByEpisode(xs, x)) == multiset(xs) + multiset{x}
    decreases |xs|
  {
    if |xs| > 0 && xs[|xs| - 1].episodeNum > x.episodeNum {
      var init, last := xs[..|xs| - 1], xs[|xs| - 1];
      InsertPermutes(init, x);
      assert xs == init + [last];
    }
  }

  lemma InsertMembers(xs: seq<FileInfo>, x: FileInfo)
    ensures forall y :: y in InsertByEpisode(xs, x) ==> y == x || y in xs
  {
    InsertPermutes(xs, x);
    forall y | y in InsertByEpisode(xs, x)
      ensures y == x || y in xs
    {
      assert y in multiset(InsertByEpisode(xs, x));
    }
  }

  /** Inserting into a sorted list keeps it sorted. */
  lemma {:induction false} InsertSorted(xs: seq<FileInfo>, x: FileInfo)
    requires SortedByEpisode(xs)
    ensures SortedByEpisode(InsertByEpisode(xs, x))
    decreases |xs|
  {
    if |xs| > 0 && xs[|xs| - 1].episodeNum > x.episodeNum {
      var init, last := xs[..|xs| - 1], xs[|xs| - 1];
      SortedInit(xs);
      InsertSorted(init, x);
      var ins := InsertByEpisode(init, x);
      InsertMembers(init, x);
      var r := ins + [last];
      forall i, j | 0 <= i < j < |r|
        ensures r[i].episodeNum <= r[j].episodeNum
      {
        if j == |r| - 1 {
          assert r[i] in ins;
          if r[i] != x {
            var k :| 0 <= k < |init| && init[k] == r[i];
            assert xs[k] == r[i];
          }
        } else {
          assert r[i] == ins[i] && r[j] == ins[j];
        }
      }
    }
  }

  lemma SortedInit(xs: seq<FileInfo>)
    requires |xs| > 0 && SortedByEpisode(xs)
    ensures SortedByEpisode(xs[..|xs| - 1])
  {
    var init := xs[..|xs| - 1];
    forall i, j | 0 <= i < j < |init|
      ensures init[i].episodeNum <= init[j].episodeNum
    {
      assert init[i] == xs[i] && init[j] == xs[j];
    }
  }

  lemma {:induction false} InsertStable(xs: seq<FileInfo>, x: FileInfo, n: nat)
    requires SortedByEpisode(xs)
    ensures WithEpisode(InsertByEpisode(xs, x), n) == WithEpisode(xs, n) + (if x.episodeNum == n then [x] else [])
    decreases |xs|
  {
    if |xs| == 0 {
      assert [x][..0] == [];
    } else if xs[|xs| - 1].episodeNum <= x.episodeNum {
      assert (xs + [x])[..|xs|] == xs;
    } else {
      var init, last := xs[..|xs| - 1], xs[|xs| - 1];
      SortedInit(xs);
      InsertStable(init, x, n);
      var ins := InsertByEpisode(init, x);
      assert InsertByEpisode(xs, x) == ins + [last];
      WithEpisodeLast(ins, last, n);
      assert xs == init + [last];
      WithEpisodeLast(init, last, n);
      if x.episodeNum == n {
        assert last.episodeNum != n;
      } else if last.episodeNum == n {
        assert WithEpisode(ins, n) == WithEpisode(init, n);
      }
    }
  }

  lemma WithEpisodeLast(xs: seq<FileInfo>, last: FileInfo, n: nat)
    ensures WithEpisode(xs + [last], n) == WithEpisode(xs, n) + (if last.episodeNum == n then [last] else [])
  {
    assert (xs + [last])[..|xs|] == xs;
  }

  /** The buffered files come out sorted by episode, every file exactly once, and files with
      the same episode number in the order they arrived. */
  lemma {:induction false} SortByEpisodeCorrect(xs: seq<FileInfo>)
    ensures SortedByEpisode(SortByEpisode(xs))
    ensures multiset(SortByEpisode(xs)) == multiset(xs)
    ensures forall n: nat :: WithEpisode(SortByEpisode(xs), n) == WithEpisode(xs, n)
    decreases |xs|
  {
    if |xs| > 0 {
      var init, last := xs[..|xs| - 1], xs[|xs| - 1];
      SortByEpisodeCorrect(init);
      InsertSorted(SortByEpisode(init), last);
      InsertPermutes(SortByEpisode(init), last);
      assert xs == init + [last];
      forall n: nat
        ensures WithEpisode(SortByEpisode(xs), n) == WithEpisode(xs, n)
      {
        InsertStable(SortByEpisode(init), last, n);
        WithEpisodeAppend(init, [last], n);
        assert WithEpisode([last], n) == (if last.episodeNum == n then [last] else []) by {
          assert [last][..0] == [];
        }
      }
    }
  }

  /** `file_info` for a received file: a file without a name is called "Unknown", and its
      episode number is the one extracted from that name. */
  function FileInfoOf(fileId: string, fileName: Option<string>, messageId: int): (info: FileInfo)
    ensures info.fileName != ""
    ensures info.episodeNum == Extract.ExtractEpisodeNumber(info.fileName)
  {
    var name := if fileName.Some? && fileName.value != "" then fileName.value else "Unknown";
    FileInfo(fileId, name, messageId, Extract.ExtractEpisodeNumber(name))
  }

  /** A file without a name sorts as "no episode", after every file with a real episode
      number below 999. */
  lemma NamelessFileHasNoEpisode(fileId: string, messageId: int)
    ensures FileInfoOf(fileId, None, messageId).episodeNum == 999
    ensures FileInfoOf(fileId, Some(""), messageId).episodeNum == 999
  {
    assert !HasDigit("Unknown") by {
      var u := "Unknown";
      assert forall k :: 0 <= k < |u| ==> !IsDigit(u[k]);
    }
    Extract.EpisodeWithoutDigitsIs999("Unknown");
  }

  // ---------------------------------------------------------------------------------------
  // The state
  // ---------------------------------------------------------------------------------------

  /** How an arriving file was handled. */
  datatype Arrival = Buffered | BufferedThenKeyError | Dispatched

  class RenameState {
    /** `renaming_operations`: file id to the time it was admitted for renaming. */
    var renamingOperations: map<string, int>
    /** `active_sequences`: user id to the files buffered in that user's sequence. */
    var activeSequences: map<int, seq<FileInfo>>
    /** `message_ids`: user id to the ids of the acknowledgements sent during the sequence. */
    var messageIds: map<int, seq<int>>
    /** The files handed to the renaming task, in the order the tasks were created. */
    var dispatched: seq<FileInfo>

    constructor ()
      ensures renamingOperations == map[] && activeSequences == map[] && messageIds == map[]
      ensures dispatched == []
    {
      renamingOperations := map[];
      activeSequences := map[];
      messageIds := map[];
      dispatched := [];
    }

    /** Admission at the top of the renaming task: a recent duplicate is skipped and leaves
        the table as it is; otherwise the file is registered at `now`. */
    method Admit(fileId: string, now: int) returns (admitted: bool)
      modifies this`renamingOperations
      ensures admitted <==> !IsRecentDuplicate(old(renamingOperations), fileId, now)
      ensures admitted ==> renamingOperations == Register(old(renamingOperations), fileId, now)
      ensures !admitted ==> renamingOperations == old(renamingOperations)
    {
      if fileId in renamingOperations {
        var elapsed := ElapsedSeconds(now, renamingOperations[fileId]);
        if elapsed < DuplicateWindow {
          return false;
        }
      }
      renamingOperations := renamingOperations[fileId := now];
      return true;
    }

    /** `if file_id in renaming_operations: del renaming_operations[file_id]` */
    method Release(fileId: string)
      modifies this`renamingOperations
      ensures renamingOperations == old(renamingOperations) - {fileId}
    {
      if fileId in renamingOperations {
        renamingOperations := renamingOperations - {fileId};
      }
    }

    /** The decision part of the renaming task for one file: admission, the template and
        media type, the keyword filter, the extractors and the rendered name. Whatever the
        outcome, a file that was admitted is no longer in the table at the end. */
    method RenameFile(info: FileInfo, now: int, formatTemplate: Option<string>,
                      mediaPreference: Option<string>, nsfwKeywords: seq<(string, seq<string>)>)
      returns (outcome: RenameOutcome)
      modifies this`renamingOperations
      ensures IsRecentDuplicate(old(renamingOperations), info.fileId, now) ==>
                outcome == SkippedDuplicate && renamingOperations == old(renamingOperations)
      ensures !IsRecentDuplicate(old(renamingOperations), info.fileId, now) ==>
                outcome == PlanRename(info.fileName, formatTemplate, mediaPreference, nsfwKeywords)
                && renamingOperations == old(renamingOperations) - {info.fileId}
    {
      ReleaseUndoesRegister(renamingOperations, info.fileId, now);
      var admitted := Admit(info.fileId, now);
      if !admitted {
        return SkippedDuplicate;
      }
      if formatTemplate.None? || formatTemplate.value == "" {
        Release(info.fileId);
        return NoTemplate;
      }
      var mediaType := Rewrite.MediaType(info.fileName, mediaPreference);
      if AntiNsfw.CheckAntiNsfwWith(info.fileName, nsfwKeywords, AntiNsfw.ExceptionKeywords) {
        Release(info.fileId);
        return NsfwRejected;
      }
      var stem, newName := RenderFile(info.fileName, formatTemplate.value);
      Release(info.fileId);
      outcome := Renamed(stem, newName, mediaType);

    }

    /** A file arriving from a user: buffered while the user's sequence is active (with the
        acknowledgement's id recorded), otherwise handed straight to the renaming task. When
        the sequence has no id list the append to it raises `KeyError` after the file has
        already been buffered. */
    method ReceiveFile(userId: int, fileId: string, fileName: Option<string>, messageId: int, replyId: int)
      returns (arrival: Arrival)
      modifies this`activeSequences, this`messageIds, this`dispatched
      ensures var info := FileInfoOf(fileId, fileName, messageId);
              if userId in old(activeSequences) then
                activeSequences == old(activeSequences)[userId := old(activeSequences)[userId] + [info]]
                && dispatched == old(dispatched)
                && (userId in old(messageIds) ==>
                      arrival == Buffered
                      && messageIds == old(messageIds)[userId := old(messageIds)[userId] + [replyId]])
                && (userId !in old(messageIds) ==>
                      arrival == BufferedThenKeyError && messageIds == old(messageIds))
              else
                arrival == Dispatched && dispatched == old(dispatched) + [info]
                && activeSequences == old(activeSequences) && messageIds == old(messageIds)
    {
      var info := FileInfoOf(fileId, fileName, messageId);
      if userId in activeSequences {
        activeSequences := activeSequences[userId := activeSequences[userId] + [info]];
        if userId !in messageIds {
          return BufferedThenKeyError;
        }
        messageIds := messageIds[userId := messageIds[userId] + [replyId]];
        return Buffered;
      }
      dispatched := dispatched + [info];
      return Dispatched;
    }

    /** `end_sequence`: with no active sequence nothing changes; otherwise both of the user's
        entries are removed and the buffered files are handed to the renaming task sorted by
        episode. Returns how many files were buffered and the acknowledgement ids to
        delete. */
    method EndSequence(userId: int) returns (count: nat, deleteMessages: seq<int>)
      modifies this`activeSequences, this`messageIds, this`dispatched
      ensures userId !in old(activeSequences) ==>
                activeSequences == old(activeSequences) && messageIds == old(messageIds)
                && dispatched == old(dispatched) && count == 0 && deleteMessages == []
      ensures userId in old(activeSequences) ==>
                activeSequences == old(activeSequences) - {userId}
                && messageIds == old(messageIds) - {userId}
                && count == |old(activeSequences)[userId]|
                && deleteMessages == (if userId in old(messageIds) then old(messageIds)[userId] else [])
                && dispatched == old(dispatched) + SortByEpisode(old(activeSequences)[userId])
    {
      if userId !in activeSequences {
        return 0, [];
      }
      var fileList := activeSequences[userId];
      activeSequences := activeSequences - {userId};
      deleteMessages := if userId in messageIds then messageIds[userId] else [];
      messageIds := messageIds - {userId};
      count := |fileList|;
      if |fileList| > 0 {
        var sorted := SortByEpisode(fileList);
        for k := 0 to |sorted|
          modifies this`dispatched
          invariant dispatched == old(dispatched) + sorted[..k]
        {
          dispatched := dispatched + [sorted[k]];
        }
        assert sorted[..|sorted|] == sorted;
      }
    }
  }
}
