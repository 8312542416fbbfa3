# Video-editor planner and plugin CLI, modelled in Dafny

This project models two parts of the agentic-school repository.

**The video-editor skill's planning core** (`video_editor.py`):
- **Analysis of a Whisper transcript.** It finds long pauses between lines (`find_silence_gaps`), retakes (`find_duplicates`: pairs of lines whose first 15 characters agree) and garbage lines (`find_garbage_segments`: too short, almost empty, or holding a hallucination marker).
- **The KEEP/REMOVE edit plan** (`generate_edit_plan`). Candidate removals are collected and sorted by start. Ranges within 1 s of each other are merged, then ranges less than 2 s apart are bridged. The timeline is then cut into alternating KEEP and REMOVE entries, with KEEPs of 0.5 s or less dropped.
- **Timestamp mapping** from the original to the edited timeline (`original_to_edited`).
- **The text-to-speech stages**:
  - preparing lines: mapping, garbage filtering and text corrections;
  - the per-line cached request with its three-attempt retry loop;
  - placing decoded clips on a silent canvas;
  - the keep list of `trim-silence`, which caps each pause by how the preceding line ends (`classify_ending`).

**The plugin CLI** (`cli/src`):
- `i18n/index.js`: `t`, `setLocale`, `getLocale` and `getSection` over nested locale objects.
- `platforms.js`: the platform table, `getPlatformConfig` and `getTargetDir`.
- `config.js`: the marketplace registry from the local copy, a one-hour cache or the remote, plus `validatePluginName` and `getPluginDependencies`.
- `install-detector.js`: which declared components exist on disk.
- `installer.js`: component discovery, `installPlugin` and `uninstallPlugin`.

**Modelling conventions:**
- Times are integer centiseconds: 0.15 s is 15, 0.3 s is 30, 0.5 s is 50, 1 s is 100, 2 s is 200 and 10 s is 1000.
- Samples at 44.1 kHz are 441 per centisecond, and a start of `t` centiseconds is taken as sample `441 * t`. The source computes `int(t * 44100)` on floats, which is sometimes one sample lower (see "## Left out").
- A file system is the set of paths that exist.
- `path.join(a, b)` is `a + "/" + b`.
- A JavaScript condition on an optional string is `Truthy`: present and not empty.
- Everything the programs read from outside is a parameter:
  - files, HTTP replies, clocks and decoded audio;
  - the measured clip durations;
  - whether a source file is readable.

**Files:**
- `base.dfy`: `Option`, `Result` and small helpers.
- `text.dfy`: strip, split/join, find and replace.
- `transcript.dfy`: the transcript and its end time.
- `silence_cap.dfy`: the line-ending classifier.
- `analyzer.dfy`: the three finders.
- `edit_plan.dfy`: the planner.
- `timeline.dfy`: timestamp mapping.
- `tts_prepare.dfy`, `tts_cache.dfy`, `assembler.dfy` and `trim_silence.dfy`: the speech stages.
- `registry.dfy`, `platforms.dfy`, `config.dfy`, `install_detector.dfy`, `installer.dfy` and `i18n.dfy`: the CLI.

In the table below, source paths are relative to the repository root. The script's path is `plugins/media/media-fx/skills/video-editor/scripts/video_editor.py`.

## Model

| member | source | states |
|---|---|---|
| Text.StripSpec | plugins/media/media-fx/skills/video-editor/scripts/video_editor.py:121 | `str.strip()` returns a contiguous piece of the input with no whitespace at either end. It is empty exactly when the input is all whitespace. |
| Text.StripIdempotent | plugins/media/media-fx/skills/video-editor/scripts/video_editor.py:121 | Stripping twice is the same as stripping once. |
| Text.JoinSplit | cli/src/i18n/index.js:51 | Joining the pieces of `keyPath.split('.')` with `.` gives back the key path. |
| Text.SplitJoin | cli/src/i18n/index.js:51 | Splitting a dot-join of dot-free pieces gives back the pieces. |
| Text.FirstOccurrence | cli/src/lib/installer.js:61 | Finds the first position where a pattern occurs, or nothing exactly when it does not occur. |
| Text.ReplaceAllAbsent | plugins/media/media-fx/skills/video-editor/scripts/video_editor.py:800-801 | `str.replace` changes nothing when the pattern does not occur. |
| Transcript.EndsWithinTotal | plugins/media/media-fx/skills/video-editor/scripts/video_editor.py:249 | For a non-overlapping transcript, every line lies within `[0, total_duration]`, where the total is the last line's end. |
| SilenceCap.FirstSuffix | plugins/media/media-fx/skills/video-editor/scripts/video_editor.py:128-138 | The first suffix of a table that the text ends with, and nothing exactly when it ends with none. |
| SilenceCap.ClassifyWith | plugins/media/media-fx/skills/video-editor/scripts/video_editor.py:116-140 | The reason decides the cap: sentence for punctuation or ending, comma for comma, continuing otherwise. Each reason holds exactly when its rule is the first to match the stripped text, in this order: empty, `.!?`, comma connector, sentence ending, particle. |
| SilenceCap.ClassifyMatchesRuleTable | plugins/media/media-fx/skills/video-editor/scripts/video_editor.py:116-140 | The classifier equals a reference evaluator that walks an ordered rule table, first match wins. |
| SilenceCap.PunctuationWins | plugins/media/media-fx/skills/video-editor/scripts/video_editor.py:125-126 | A final `.`, `!` or `?` gives the sentence cap whatever the suffix tables hold. |
| SilenceCap.PunctuationAsSuffix | plugins/media/media-fx/skills/video-editor/scripts/video_editor.py:125 | Ending with one of the strings `.`, `!`, `?` is the same as having one of those characters last. |
| SilenceCap.NoSuffixByLastChar | plugins/media/media-fx/skills/video-editor/scripts/video_editor.py:128-134 | A text cannot end with any suffix of a table whose suffixes all end in characters other than the text's last. |
| SilenceCap.CommaConnectorsEndWithComma | plugins/media/media-fx/skills/video-editor/scripts/video_editor.py:106 | Every comma connector ends with `,`. |
| SilenceCap.SentenceEndingsFinals | plugins/media/media-fx/skills/video-editor/scripts/video_editor.py:95-104 | Every sentence ending ends with 다, 요 or 죠. |
| SilenceCap.ClassifyBlank | plugins/media/media-fx/skills/video-editor/scripts/video_editor.py:121-123 | Whitespace-only text is "empty" with the continuing cap of 0.15 s. |
| SilenceCap.ClassifyPeriod | plugins/media/media-fx/skills/video-editor/scripts/video_editor.py:125-126 | A sentence ending in `.` gets 0.5 s, reason punctuation. |
| SilenceCap.ClassifyCommaConnector | plugins/media/media-fx/skills/video-editor/scripts/video_editor.py:128-130 | `설치하고,` gets 0.3 s, reason comma. |
| SilenceCap.ClassifySentenceEnding | plugins/media/media-fx/skills/video-editor/scripts/video_editor.py:132-134 | `설치합니다` gets 0.5 s, reason ending. |
| SilenceCap.ClassifyParticle | plugins/media/media-fx/skills/video-editor/scripts/video_editor.py:136-138 | `터미널에서` gets 0.15 s, reason continuing. |
| Analyzer.FindSilenceGaps | plugins/media/media-fx/skills/video-editor/scripts/video_editor.py:166-181 | Sound: each gap describes a pause longer than `min_gap` before its line. Complete: every such pause is listed. Ordered by line. |
| Analyzer.GapsFromComplete | plugins/media/media-fx/skills/video-editor/scripts/video_editor.py:169-172 | Every long enough pause at or after the scan position is listed. |
| Analyzer.FindDuplicates | plugins/media/media-fx/skills/video-editor/scripts/video_editor.py:184-203 | Sound: each entry is a pair `i < j` whose stripped texts are longer than `min_chars` and agree on their first `min_chars` characters. Complete: every such pair is listed. Ordered as the nested loop visits them. |
| Analyzer.DupesFrom | plugins/media/media-fx/skills/video-editor/scripts/video_editor.py:187-192 | From loop position `(i, j)` on, the pairs listed are exactly the retake pairs the loop has yet to visit, in visiting order. |
| Analyzer.GarbageReasonOf | plugins/media/media-fx/skills/video-editor/scripts/video_editor.py:212-225 | A line is garbage exactly when it is under 0.3 s, or its stripped text has fewer than 2 characters, or it holds a marker. Each reason is given exactly when it is the first test that holds. |
| Analyzer.FindGarbage | plugins/media/media-fx/skills/video-editor/scripts/video_editor.py:206-236 | Sound, complete and in line order: the garbage lines, each with its reason. |
| Analyzer.GarbageFrom | plugins/media/media-fx/skills/video-editor/scripts/video_editor.py:211-236 | From line `i` on, exactly the garbage lines, in order. |
| Analyzer.ShortSegmentIsTooShort | plugins/media/media-fx/skills/video-editor/scripts/video_editor.py:217-219 | A line under 0.3 s is reported as too short, with its own duration. |
| Analyzer.RetakeExample | plugins/media/media-fx/skills/video-editor/scripts/video_editor.py:184-203 | Two identical lines of more than 15 characters form exactly one retake pair. |
| EditPlan.SilenceRanges | plugins/media/media-fx/skills/video-editor/scripts/video_editor.py:254-261 | A range is a candidate exactly when it spans a gap whose duration reaches the long-silence threshold. |
| EditPlan.GarbageRanges | plugins/media/media-fx/skills/video-editor/scripts/video_editor.py:288-294 | One candidate per garbage line, in order, spanning that line. |
| EditPlan.GroupKeys | plugins/media/media-fx/skills/video-editor/scripts/video_editor.py:265-270 | The retake groups' keys: the first 15 characters of each pair's first text. They are distinct, in first-appearance order, and cover exactly the keys that occur. |
| EditPlan.GroupOf | plugins/media/media-fx/skills/video-editor/scripts/video_editor.py:266-270 | A pair is in a key's group exactly when its key is that key. |
| EditPlan.Members | plugins/media/media-fx/skills/video-editor/scripts/video_editor.py:274-277 | The set of takes: distinct, and a take is a member exactly when it is the first or second take of some pair in the group. |
| EditPlan.InsertByStart | plugins/media/media-fx/skills/video-editor/scripts/video_editor.py:279 | Inserting into a start-sorted list keeps it sorted and adds exactly the one element. |
| EditPlan.SortByStart | plugins/media/media-fx/skills/video-editor/scripts/video_editor.py:279 | Sorting by start gives a sorted permutation. |
| EditPlan.SortStable | plugins/media/media-fx/skills/video-editor/scripts/video_editor.py:279 | The sort is stable: the ranges with any given start come out in their input order. |
| EditPlan.InsertStable | plugins/media/media-fx/skills/video-editor/scripts/video_editor.py:279 | Inserting a range places it before every range with the same start, and keeps those in order. |
| EditPlan.DropLatest | plugins/media/media-fx/skills/video-editor/scripts/video_editor.py:279-281 | All takes but one are removed. The one kept is a member that starts no earlier than any removed take. What is removed plus the kept take is exactly the group. |
| EditPlan.RetakeRanges | plugins/media/media-fx/skills/video-editor/scripts/video_editor.py:263-286 | Every retake removal is the first or second take of some pair. |
| EditPlan.MergeOne | plugins/media/media-fx/skills/video-editor/scripts/video_editor.py:299-306 | One merge step keeps the merged list more than 1 s apart. |
| EditPlan.MergeClose | plugins/media/media-fx/skills/video-editor/scripts/video_editor.py:296-306 | The merged ranges are pairwise more than 1 s apart. |
| EditPlan.BridgeOne | plugins/media/media-fx/skills/video-editor/scripts/video_editor.py:311-316 | One bridging step keeps the final list at least 2 s apart. |
| EditPlan.BridgeGaps | plugins/media/media-fx/skills/video-editor/scripts/video_editor.py:308-316 | The final removals are pairwise at least 2 s apart. |
| EditPlan.MergeCloseCovers | plugins/media/media-fx/skills/video-editor/scripts/video_editor.py:296-306 | Merging a sorted list loses nothing: every input range lies inside some merged range, and the merged ranges are well formed. |
| EditPlan.MergeOneCovers | plugins/media/media-fx/skills/video-editor/scripts/video_editor.py:300-306 | After one step the new range lies inside the last merged range, and every earlier range still lies inside some merged range. |
| EditPlan.MergeCloseWithin | plugins/media/media-fx/skills/video-editor/scripts/video_editor.py:296-306 | Merging never leaves the interval that holds its inputs. |
| EditPlan.BridgeGapsCovers | plugins/media/media-fx/skills/video-editor/scripts/video_editor.py:308-316 | Bridging loses nothing: every merged range lies inside some final range. |
| EditPlan.BridgeOneCovers | plugins/media/media-fx/skills/video-editor/scripts/video_editor.py:312-316 | After one step the new range lies inside the last final range, which ends where it ends. |
| EditPlan.BridgeGapsWithin | plugins/media/media-fx/skills/video-editor/scripts/video_editor.py:308-316 | Bridging never leaves the interval that holds its inputs. |
| EditPlan.FinalRemovesCover | plugins/media/media-fx/skills/video-editor/scripts/video_editor.py:296-316 | Sort, merge and bridge together: the final removals are well formed, cover every candidate, and stay within the candidates' interval. |
| EditPlan.BuildFrom | plugins/media/media-fx/skills/video-editor/scripts/video_editor.py:318-346 | The plan is contiguous and alternates KEEP and REMOVE. Every KEEP is longer than 0.5 s, and a KEEP that is neither the first nor the last entry is at least 2 s long. It is empty exactly when there is nothing to remove and at most 0.5 s remains. It starts at the position or at the first removal, at most 0.5 s later. It ends at the total or at a REMOVE within 0.5 s of it. |
| EditPlan.BuildShape | plugins/media/media-fx/skills/video-editor/scripts/video_editor.py:321-335 | One loop pass (an optional KEEP, then a REMOVE) in front of a well-shaped rest gives a well-shaped plan. |
| EditPlan.BuildFromRemoves | plugins/media/media-fx/skills/video-editor/scripts/video_editor.py:329-334 | Every final removal appears in the plan as a REMOVE entry. |
| EditPlan.BuildFromOnlyRemoves | plugins/media/media-fx/skills/video-editor/scripts/video_editor.py:318-346 | Every REMOVE entry of the plan is one of the final removals. |
| EditPlan.BuildFromWithin | plugins/media/media-fx/skills/video-editor/scripts/video_editor.py:318-346 | With removals inside `[0, total]`, every entry runs forwards inside `[0, total]`. |
| EditPlan.ContiguousCovers | plugins/media/media-fx/skills/video-editor/scripts/video_editor.py:318-346 | A contiguous plan covers every instant from its start to its end. |
| EditPlan.GenerateEditPlan | plugins/media/media-fx/skills/video-editor/scripts/video_editor.py:239-346 | The plan is well shaped. It starts at 0 or with a REMOVE at most 0.5 s in. It ends at the recording's end or with a REMOVE within 0.5 s of it. It is empty only for recordings of 0.5 s or less. With no candidates it is a single KEEP of the whole recording. |
| EditPlan.PlanRemovesCandidates | plugins/media/media-fx/skills/video-editor/scripts/video_editor.py:239-346 | Every candidate removal (long pause, earlier take or garbage line) lies inside some REMOVE entry of the plan. |
| EditPlan.PlanCoversTimeline | plugins/media/media-fx/skills/video-editor/scripts/video_editor.py:239-346 | With candidates inside the recording, every entry lies within it, and every instant from 0.5 s to 0.5 s before the end is in some entry. |
| EditPlan.AnalysisCandidatesFit | plugins/media/media-fx/skills/video-editor/scripts/video_editor.py:166-294 | For a non-overlapping transcript, the candidates found by the three finders are well formed and inside the recording. |
| EditPlan.SilenceRangesFit | plugins/media/media-fx/skills/video-editor/scripts/video_editor.py:254-261 | Pause candidates lie inside the recording. |
| EditPlan.RetakeRangesFit | plugins/media/media-fx/skills/video-editor/scripts/video_editor.py:263-286 | Retake candidates lie inside the recording. |
| EditPlan.GarbageRangesFit | plugins/media/media-fx/skills/video-editor/scripts/video_editor.py:288-294 | Garbage candidates lie inside the recording. |
| EditPlan.MergeExample | plugins/media/media-fx/skills/video-editor/scripts/video_editor.py:296-346 | In a 10 s recording, pauses at 2-4 s and 4.5-6 s (threshold 1 s) become KEEP 0-2, REMOVE 2-6 with both notes, KEEP 6-10. |
| EditPlan.LeadingSliverExample | plugins/media/media-fx/skills/video-editor/scripts/video_editor.py:321-335 | A garbage line at 0.3-1 s leaves no 0.3 s KEEP before it: the plan is REMOVE 0.3-1, KEEP 1-10. |
| Timeline.OriginalToEditedSpec | plugins/media/media-fx/skills/video-editor/scripts/video_editor.py:143-159 | For an ordered plan, a time strictly inside a REMOVE maps to nothing. A time outside every REMOVE maps to itself minus the removed time before it. Nothing else maps to nothing. |
| Timeline.WalkBounds | plugins/media/media-fx/skills/video-editor/scripts/video_editor.py:143-159 | A mapped time lies between 0 and the original time. |
| Timeline.WalkMonotone | plugins/media/media-fx/skills/video-editor/scripts/video_editor.py:148-159 | Mapping keeps the order of times. |
| Timeline.WalkNoneStrictlyInside | plugins/media/media-fx/skills/video-editor/scripts/video_editor.py:152-154 | A time strictly inside a REMOVE of an ordered plan maps to nothing. |
| Timeline.WalkNoneInRemove | plugins/media/media-fx/skills/video-editor/scripts/video_editor.py:152-154 | Only times inside some REMOVE map to nothing. |
| Timeline.WalkMeasures | plugins/media/media-fx/skills/video-editor/scripts/video_editor.py:148-159 | A mapped time is the time minus the lengths of the REMOVEs wholly before it. |
| Timeline.WalkAtMost | plugins/media/media-fx/skills/video-editor/scripts/video_editor.py:148-159 | A mapped time never exceeds the original. |
| Timeline.WalkAtLeast | plugins/media/media-fx/skills/video-editor/scripts/video_editor.py:148-159 | A mapped time is at least the plan's start less what was removed before. |
| Timeline.GeneratedPlanOrdered | plugins/media/media-fx/skills/video-editor/scripts/video_editor.py:239-346 | The generated plan is ordered and starts at or after 0, so the mapping facts apply to it. |
| Timeline.MappingExample | plugins/media/media-fx/skills/video-editor/scripts/video_editor.py:143-159 | For KEEP 0-10, REMOVE 10-15, KEEP 15-30: 5 s maps to 5, 10 to 10, 12 to nothing and 20 to 15. |
| TtsPrepare.MapSegments | plugins/media/media-fx/skills/video-editor/scripts/video_editor.py:756-766 | A line is kept exactly when both of its ends map and it is still of positive length. Kept lines carry their mapped ends, their duration and their stripped text. |
| TtsPrepare.MapOneSpec | plugins/media/media-fx/skills/video-editor/scripts/video_editor.py:758-760 | A mapped line's ends are the original ends less the time removed before each, and it is no longer than before. A line with neither end in a REMOVE is kept exactly when it keeps positive length. |
| TtsPrepare.MappedInOrder | plugins/media/media-fx/skills/video-editor/scripts/video_editor.py:756-766 | A sorted transcript maps to lines in start order. |
| TtsPrepare.RemovedBeforeMonotone | plugins/media/media-fx/skills/video-editor/scripts/video_editor.py:148-159 | The removed time before an instant grows with the instant. |
| TtsPrepare.FilterGarbage | plugins/media/media-fx/skills/video-editor/scripts/video_editor.py:770-788 | Kept plus counted is the number of lines. A line is kept exactly when none of the three garbage tests holds. The kept lines are a sublist of the input in its order, so lines in start order stay in start order. |
| TtsPrepare.PrepareDropsIsGarbageRule | plugins/media/media-fx/skills/video-editor/scripts/video_editor.py:774-783 | The preparation filter is the analysis garbage rule with the preparation's marker list. |
| TtsPrepare.ReplacementCharSurvives | plugins/media/media-fx/skills/video-editor/scripts/video_editor.py:771 | The two marker lists differ: a line holding U+FFFD is garbage to the analysis but survives preparation, whose list holds U+2047. |
| TtsPrepare.CorrectText | plugins/media/media-fx/skills/video-editor/scripts/video_editor.py:799-802 | The fix count is at most the number of corrections. It is zero exactly when no pattern occurs, and then the text is unchanged. |
| TtsPrepare.SelfCorrectionsChangeNothing | plugins/media/media-fx/skills/video-editor/scripts/video_editor.py:799-802 | Corrections that map each pattern to itself leave the text as it was. |
| TtsPrepare.ApplyCorrections | plugins/media/media-fx/skills/video-editor/scripts/video_editor.py:793-802 | Only texts change, each by its own corrections. The count is zero exactly when no pattern occurs in any line. |
| TtsPrepare.PrepareSegments | plugins/media/media-fx/skills/video-editor/scripts/video_editor.py:756-802 | Kept plus garbage is the number of mapped lines. Every kept line lasts at least 0.3 s and has the ends of some mapped transcript line. No corrections means no fixes. A time-ordered transcript and an ordered plan give lines in start order. |
| TtsCache.Attempts | plugins/media/media-fx/skills/video-editor/scripts/video_editor.py:903-924 | The clip is obtained exactly when some remaining attempt answers 200. The line counts as an error exactly when none does and the last reply is not 429. Never both. At most three requests. |
| TtsCache.FetchLine | plugins/media/media-fx/skills/video-editor/scripts/video_editor.py:883-924 | A cached clip without `--force` sends no request. Otherwise the clip is obtained exactly when some attempt answers 200. |
| TtsCache.RequestsUpToFirstOk | plugins/media/media-fx/skills/video-editor/scripts/video_editor.py:907-911 | Requests stop at the first 200. |
| TtsCache.AllAttemptsWithoutOk | plugins/media/media-fx/skills/video-editor/scripts/video_editor.py:904-924 | Without a 200, every attempt is made. |
| TtsCache.AlwaysRateLimited | plugins/media/media-fx/skills/video-editor/scripts/video_editor.py:912-915 | Three 429 replies wait 5, 10 and 20 s and count neither as success nor as error. |
| TtsCache.RetryThenOk | plugins/media/media-fx/skills/video-editor/scripts/video_editor.py:904-919 | A 500 followed by a 200 succeeds after two requests, with no error. |
| TtsCache.Tally | plugins/media/media-fx/skills/video-editor/scripts/video_editor.py:881-923 | `success` is the number of lines obtained and `errors` the number of lines that failed. |
| TtsCache.TallyBound | plugins/media/media-fx/skills/video-editor/scripts/video_editor.py:881-923 | Successes plus errors never exceed the lines. They equal them exactly when every line either succeeded or failed. |
| Assembler.SliceAssign | plugins/media/media-fx/skills/video-editor/scripts/video_editor.py:974 | numpy slice assignment raises exactly when the value's length is neither the clipped slice's nor 1. Otherwise only the slice changes, to the value. |
| Assembler.PlaceOne | plugins/media/media-fx/skills/video-editor/scripts/video_editor.py:960-975 | One clip writes its first samples from its start, as many as fit before the next line and the canvas end, and nothing else changes. |
| Assembler.AsWrittenAgrees | plugins/media/media-fx/skills/video-editor/scripts/video_editor.py:960-975 | For a clip starting within the canvas, the code as written succeeds and agrees with `PlaceOne`. |
| Assembler.AsWrittenPastEnd | plugins/media/media-fx/skills/video-editor/scripts/video_editor.py:968-974 | A last clip starting `d` samples past the canvas end makes the code raise exactly when the clip has at least `2d + 2` samples. |
| Assembler.AsWrittenPastEndInner | plugins/media/media-fx/skills/video-editor/scripts/video_editor.py:964-974 | A line that is not the last, starting `d` samples past the canvas end, makes the code raise exactly when its clip, cut to the space before the next line, keeps at least `d + 2` samples. |
| Assembler.PastEndExample | plugins/media/media-fx/skills/video-editor/scripts/video_editor.py:960-975 | A 1 s canvas with a 1000-sample clip at 1.01 s raises as written, whether the line is the last or the next starts at 2 s, while `PlaceOne` leaves the canvas silent. |
| Assembler.PreparedStartsForward | plugins/media/media-fx/skills/video-editor/scripts/video_editor.py:756-788 | The prepared lines of a time-ordered transcript, moved along an ordered plan starting at or after 0, start at or after 0 and in order, as the assembly needs. |
| Assembler.WindowBounds | plugins/media/media-fx/skills/video-editor/scripts/video_editor.py:961-973 | Each clip's written window fits within the clip, before the next line's start, and within the canvas. |
| Assembler.Assemble | plugins/media/media-fx/skills/video-editor/scripts/video_editor.py:938-975 | The canvas has the video's length. `placed` counts the decoded clips. Every sample inside a clip's window is that clip's sample, and every other sample is silence. |
| Assembler.PaintChanges | plugins/media/media-fx/skills/video-editor/scripts/video_editor.py:969-974 | Placing one clip changes exactly the samples of its window. |
| TrimSilence.SpokenDurations | plugins/media/media-fx/skills/video-editor/scripts/video_editor.py:1074-1080 | Each line's spoken length is the measured clip length when there is a clip, else the line's own duration. |
| TrimSilence.CutsBefore | plugins/media/media-fx/skills/video-editor/scripts/video_editor.py:1096-1121 | Every recorded cut is a line before `i` whose following pause exceeds its cap. |
| TrimSilence.CutsBeforeSpec | plugins/media/media-fx/skills/video-editor/scripts/video_editor.py:1096-1121 | Every such line is recorded, in increasing order. |
| TrimSilence.ClosedKeepsLength | plugins/media/media-fx/skills/video-editor/scripts/video_editor.py:1115-1121 | The closed keeps together last as long as the time up to the open keep less what was removed. |
| TrimSilence.ClosedKeepsAt | plugins/media/media-fx/skills/video-editor/scripts/video_editor.py:1115-1121 | The `k`-th keep starts at 0 or after the previous cut, and ends the cap after the `k`-th cut line's speech. |
| TrimSilence.BuildKeeps | plugins/media/media-fx/skills/video-editor/scripts/video_editor.py:1090-1125 | The loop gives one keep per cut plus a last keep to the video's end. The removed total is the sum of the cut pauses, and the keeps last exactly the video less what was removed. In dynamic mode the reasons of all lines but the last are counted. |
| TrimSilence.KeepStep | plugins/media/media-fx/skills/video-editor/scripts/video_editor.py:1097-1123 | One loop pass keeps the loop state: the cuts so far, the open keep's start, the removed total and the closed keeps. |
| TrimSilence.KeepsLength | plugins/media/media-fx/skills/video-editor/scripts/video_editor.py:1125 | The final duration is the video's length less the removed total. |
| TrimSilence.BuildKeepsShape | plugins/media/media-fx/skills/video-editor/scripts/video_editor.py:1115-1123 | The first keep starts at 0 and the last ends at the video's end. Each cut ends a keep at speech end plus cap, and the next keep resumes strictly later, at the next line's start. |
| TrimSilence.TrimKeeps | plugins/media/media-fx/skills/video-editor/scripts/video_editor.py:1090-1125 | The keep list, cut count and removed total in both modes. Fixed mode counts no reasons. |
| TrimSilence.CutRemovesPositive | plugins/media/media-fx/skills/video-editor/scripts/video_editor.py:1115-1119 | A cut removes a positive amount, and the kept part ends at speech end plus cap. |
| TrimSilence.RemovedTotalPositive | plugins/media/media-fx/skills/video-editor/scripts/video_editor.py:1115-1121 | Nothing is removed exactly when there are no cuts, and each cut removes at least one unit. |
| TrimSilence.ReasonsCount | plugins/media/media-fx/skills/video-editor/scripts/video_editor.py:1103-1110 | Dynamic mode counts one reason per line except the last, each the reason of some such line. |
| TrimSilence.FixedExample | plugins/media/media-fx/skills/video-editor/scripts/video_editor.py:1090-1125 | Fixed cap 0.5 s, lines at 0-1 s and 2-3 s in a 5 s video: one cut, keeps 0-1.5 and 2-5, 0.5 s removed. |
| I18n.WordRun | cli/src/i18n/index.js:76 | The longest run of `\w` characters from a position. |
| I18n.UntokenizeTokenize | cli/src/i18n/index.js:76-78 | Splitting a message into literal characters and `{word}` holes loses nothing: putting it back together gives the message. |
| I18n.RenderUnfilled | cli/src/i18n/index.js:76-78 | Holes without a parameter render as themselves. |
| I18n.InterpolateUnfilled | cli/src/i18n/index.js:76-78 | A message none of whose holes has a parameter is returned unchanged. |
| I18n.InterpolateNoParams | cli/src/i18n/index.js:50-78 | Without parameters, a message is returned unchanged. |
| I18n.SinglePass | cli/src/i18n/index.js:76-78 | Interpolation is one pass: an inserted `{b}` is not filled again. |
| I18n.WalkAppend | cli/src/i18n/index.js:54-69 | Walking a key path in two parts is walking the first part, then the second from where it ends. |
| I18n.SetLocale | cli/src/i18n/index.js:19-26 | A loaded locale becomes current. Any other name selects English. The loaded locales are unchanged. |
| I18n.SetLocaleStable | cli/src/i18n/index.js:19-34 | Re-selecting the current locale changes nothing, and selecting twice is selecting once. |
| I18n.WalkKeys | cli/src/i18n/index.js:54-69 | The key loop yields the value the key path leads to, or nothing when a step is missing. |
| I18n.T | cli/src/i18n/index.js:50-79 | The four outcomes of `t`. A string found in the current locale is interpolated. A non-string found there gives the key path. A missing key falls back to English, interpolating a string found there and otherwise giving the key path. |
| I18n.GetSection | cli/src/i18n/index.js:86-88 | A truthy section of the current locale, else a truthy English one, else the empty object. |
| I18n.SectionThenKey | cli/src/i18n/index.js:50-88 | For dot-free names, `t('s.k')` looks up what `getSection('s')[k]` holds when the current locale has the section. |
| I18n.FixtureKeys | cli/src/i18n/index.js:51 | `install.pluginNotFound` splits into its two keys, and `install` into one. |
| I18n.FixtureFallback | cli/src/i18n/index.js:58-66 | A key missing from the Korean fragment is found in the English one. |
| I18n.FixtureLookups | cli/src/i18n/index.js:19-66 | Sample lookups in the fragments. An unknown locale selects English. |
| Platforms.Keys | cli/src/lib/platforms.js:61 | `Object.keys`: the table's names, in order. |
| Platforms.Lookup | cli/src/lib/platforms.js:73 | Finds a name's configuration, or nothing exactly when the name is not in the table. |
| Platforms.GetPlatformConfig | cli/src/lib/platforms.js:72-80 | Succeeds exactly for the six platform names, with that platform's row. Otherwise it fails with the message naming the valid platforms. |
| Platforms.GetTargetDir | cli/src/lib/platforms.js:88-91 | The target path, `/`, then the platform's directory. It fails exactly when the platform is unknown, with the same message. |
| Platforms.NamesAreTheKeys | cli/src/lib/platforms.js:9-64 | The names are claude, gemini, antigravity, codex, opencode and agents. They are distinct and include the default. |
| Platforms.SupportTable | cli/src/lib/platforms.js:9-58 | Every platform has `skills`. Only claude and opencode have commands, and only claude, gemini and opencode have agents. |
| Platforms.LookupAt | cli/src/lib/platforms.js:73 | In a table with distinct names, each row is what its name looks up. |
| Platforms.ConfigOfEachPlatform | cli/src/lib/platforms.js:72-80 | Every row of the table is returned for its own name. |
| Platforms.SharedAndMissing | cli/src/lib/platforms.js:9-91 | codex and agents resolve to the same `.agents` directory, and openclaw is not a platform. |
| Platforms.CodexAndAgents | cli/src/lib/platforms.js:9-58 | The codex and agents rows both use `.agents`. |
| Platforms.OpenclawMissing | cli/src/lib/platforms.js:72-80 | `getPlatformConfig('openclaw')` throws. |
| Registry.Find | cli/src/lib/config.js:131 | The first plugin with the name, or nothing exactly when no plugin has it. |
| Config.CachedConfig | cli/src/lib/config.js:92-110 | A cache entry is used exactly when it exists, is not stale and has data. An entry is stale only when strictly more than an hour has passed. |
| Config.FetchRemote | cli/src/lib/config.js:78-87 | Succeeds exactly on an ok response, with its body. A non-ok response gives the message with the status. |
| Config.GetMarketplaceConfig | cli/src/lib/config.js:30-56 | A local copy wins when allowed. A cache entry is written only after a remote success, when writing works, holding the write time and the registry. |
| Config.Precedence | cli/src/lib/config.js:30-56 | After the local copy, a usable cache entry is returned when the cache is allowed and not bypassed. Otherwise the result is the remote's. |
| Config.ForceRefreshKeepsLocal | cli/src/lib/config.js:34-47 | `forceRefresh` bypasses the cache but not the local copy. |
| Config.WriteFailureIgnored | cli/src/lib/config.js:115-125 | A failing cache write changes nothing but the cache. |
| Config.FreshBoundary | cli/src/lib/config.js:102 | An entry written at `t` is used up to and including `t` plus one hour, and not after. |
| Config.CacheRoundTrip | cli/src/lib/config.js:30-125 | What a remote fetch caches is returned by a later call within the hour without the remote. After the hour, the later call goes to the remote. |
| Config.ValidatePluginName | cli/src/lib/config.js:130-133 | The first plugin with that name, or null exactly when there is none. |
| Config.GetPluginDependencies | cli/src/lib/config.js:138-150 | At most one dependency: the first `common` entry. It is none exactly when the plugin is `common` or there is no such entry. |
| InstallDetector.Present | cli/src/lib/install-detector.js:28-33 | A name is found exactly when its file exists. The found names keep the declared order. |
| InstallDetector.DetectOne | cli/src/lib/install-detector.js:20-68 | Installed exactly when something was found. The found names are in declared order. Platforms without agents or commands report none. A skill is found exactly when its directory exists under the skills directory, whatever the plugin's name. |
| InstallDetector.DetectInstalledPlugins | cli/src/lib/install-detector.js:17-72 | Every plugin's name has an entry, and only those names. A name's entry is the detection of its last plugin. |
| InstallDetector.SetAllHas | cli/src/lib/install-detector.js:65 | `Map.set` in a loop gives every name an entry. |
| InstallDetector.SetAllFrom | cli/src/lib/install-detector.js:65 | Every key of the map was set. |
| InstallDetector.SetAllLast | cli/src/lib/install-detector.js:65 | A key's value is the one set last. |
| InstallDetector.FilesExactly | cli/src/lib/install-detector.js:25-34 | When every path's parent exists, an agent is found exactly when the platform has agents and the agent's file exists. |
| InstallDetector.PresentAll | cli/src/lib/install-detector.js:28-33 | When every file exists, every name is found, in order. |
| InstallDetector.FoundAll | cli/src/lib/install-detector.js:25-34 | When the plugin's directory and every declared file exist, all declared agents are found. |
| InstallDetector.PresentNone | cli/src/lib/install-detector.js:28-33 | When no file exists, nothing is found. |
| Installer.StripDotSlash | cli/src/lib/installer.js:127 | One leading `./` is removed, and nothing else changes. |
| Installer.GetSourcePath | cli/src/lib/installer.js:122-128 | A truthy `source`, else a truthy `path`, with one leading `./` removed. Without either, `plugins/<name>`. |
| Installer.MdNames | cli/src/lib/installer.js:59-61 | The names derived from a listing, with the extension removed: `x` is derived exactly when `x.md` is listed. |
| Installer.NamesAgree | cli/src/lib/installer.js:59-61 | When no listed `.md` file holds another `.md` before its extension, the code as written gives the same names as the intended rule. |
| Installer.InnerMdExample | cli/src/lib/installer.js:61 | As written, `a.mdb.md` becomes `ab.md`. The intended name is `a.mdb`. |
| Installer.DirNames | cli/src/lib/installer.js:76-79 | A skill is discovered exactly when a directory of that name is listed. |
| Installer.DiscoverComponents | cli/src/lib/installer.js:52-83 | All three lists are present. Each holds exactly the names of its directory's entries, empty when the directory is missing. |
| Installer.SelectComponents | cli/src/lib/installer.js:155-162 | Declared components are used unless missing or an empty object, in which case the discovered ones are. |
| Installer.RemoveTree | cli/src/lib/installer.js:255 | Recursive removal deletes the directory and every path under it, and keeps every other path. |
| Installer.InstallFiles | cli/src/lib/installer.js:176-208 | Only target files are added. On success every name's file exists, and without `force` none existed before. Failure comes from a specific name: existing without `force`, or an unreadable source. |
| Installer.InstallSkills | cli/src/lib/installer.js:245-277 | On success every skill is counted. Without `force`, no skill directory existed before. With `force`, only the skills' own trees were cleared. For skill names without `/`, every skill directory exists on success, and with `force` nothing that lay inside a skill directory that existed survives. A failure names the offending skill. |
| Installer.InstallKind | cli/src/lib/installer.js:176-242 | Agents or commands go to `<kind>/<plugin>/<name>.md`. The count equals the list on success, and nothing outside the kind's directory is added. |
| Installer.InstallPlugin | cli/src/lib/installer.js:145-280 | On success the counts equal the list lengths. Without `force`, nothing is removed and no target existed before. |
| Installer.RemoveSkills | cli/src/lib/installer.js:328-336 | Every skill directory is gone afterwards, and so is everything that lay inside one that existed. Nothing outside the skills directory changes. For names without `/`, the count is the number of distinct listed skills whose directory existed. |
| Installer.RemoveSkillsSkipsMissing | cli/src/lib/installer.js:328-333 | A skill directory that does not exist is neither removed nor counted, so a path below it is left alone. |
| Installer.UninstallPlugin | cli/src/lib/installer.js:285-339 | The agents count is the declared count when the plugin's agents directory existed, else 0, and likewise for commands. For names without `/`, the skills count is the number of distinct listed skills whose directory existed. When the agents list is non-empty, the plugin's agents directory is gone afterwards, and so is everything that lay inside it if it existed; likewise for commands. Every listed skill directory is gone, and so is everything that lay inside one that existed. |
| Installer.InstallContents | cli/src/lib/installer.js:145-280 | For skill names without `/`: after a successful install, every agent file, command file and skill directory exists. |
| Installer.InstallThenDetect | cli/src/lib/installer.js:145-280 | For skill names without `/`: after a successful install, detection on a platform with the installer's layout finds exactly the declared components. The plugin counts as installed exactly when it declares any. |
| Installer.DetectInstalled | cli/src/lib/install-detector.js:20-68 | When the installer's files exist, detection lists every declared component in order. |
| Installer.UninstallThenNothing | cli/src/lib/installer.js:285-339 | After uninstalling, detection finds nothing for the plugin. |
| Installer.OneAgentInstall | cli/src/lib/installer.js:176-208 | A one-agent plugin installs into an empty tree exactly when its source file is readable, else it fails on that agent. |
| Installer.InnerMdInstallAsWritten | cli/src/lib/installer.js:59-61 | A plugin whose only source file is `agents/a.mdb.md` fails to install as written, because the derived name points at a missing file. |
| Installer.InnerMdInstallIntended | cli/src/lib/installer.js:59-61 | With the intended name, the same plugin installs its one agent. |

## Left out

- Running external programs is not modelled: ffmpeg, ffprobe, Whisper, the speech service, HTTP, WAV/MP3 decoding and file reads and writes. Their results are parameters.
- Floating-point arithmetic and `round(x, 2)` are not modelled. Every time is a whole number of centiseconds, where rounding to two decimals is the identity.
- Audio samples are abstract integers, and clip decoding is a parameter.
- Assembler.StartSample: a start of `t` centiseconds is sample `441 * t`. The source's `int(t * 44100)` on a float is one sample lower for many whole-centisecond starts (0.35 s gives 15434, not 15435), and so is `int(video_dur * 44100)` for the canvas length. A real clip can therefore start one sample earlier, and its window can be one sample shorter, than the model says. The truncation keeps the starts in order, so the ordering facts carry over.
- The argparse commands, printing, progress output, `fmt_time`, `get_media_info`, `extract_audio` and the execute/render steps are not modelled. They are I/O around the modelled core.
- The plan's notes are abstract values: a pause's duration, a take's line index or a garbage reason. Joining them with ` + ` is sequence concatenation. The Korean text formatting is not modelled.
- Python's set iteration order for retake takes is implementation-defined. The model uses first-insertion order, then a stable sort by start. Takes with equal starts may therefore be ordered differently from the interpreter.
- Clips starting before 0 (negative starts) are not modelled in the assembler. Starts are natural numbers.
- `path.join` normalisation (`..`, duplicate slashes, trailing slashes) is not modelled. Joining is `a + "/" + b`.
- JavaScript prototype lookups are not modelled. Examples are `PLATFORMS['constructor']`, `key in value` for inherited keys, and locale names such as `toString`.
- A local package copy and a remote GitHub source are one abstract set of readable source files (`readable`). `copyDirectory` and `downloadDirectory` are modelled only as creating the skill directory. Skill contents are not tracked.
- Failing writes, `ensureDir` creating missing ancestors, and errors from `readdir` are not modelled.
- A components object that has keys other than `agents`, `commands` and `skills` is modelled like one with those three.
- Installer.InstallSkills: that every skill directory exists after a successful install, and that `force` leaves nothing of an old skill tree, are stated only for skill names without `/`. A name such as `a/b` puts one skill directory inside another. Clearing or copying the outer skill then also affects the inner one, and since file contents are not tracked the model cannot say whether the copy of `a` brings `a/b` back.
- Installer.InstallContents: requires skill names without `/`, for the reason given for `Installer.InstallSkills`.
- Installer.InstallThenDetect: requires skill names without `/`, for the reason given for `Installer.InstallSkills`.
- Installer.SelectComponents: a missing key and a key holding `null` are both `None`. The source uses an object such as `{"agents": null}` as given, because it has a key, and so installs nothing. The model treats it as empty and installs the discovered components.
- `discoverRemoteComponents` is modelled by the same listing as the local scan. Its extra `type === 'file'` filter is folded into the listing.
- JSON parse errors in the cache file and in fetched bodies are not modelled. A missing timestamp is treated like `NaN`, which never goes stale. A timestamp that is `null` or a string is not modelled.
- `T` is written as two key walks: the current locale, then English from the start. This is the same result as the source's loop with its inner fallback.
- `getAvailableLocales`, the downloader, `fs-utils`, the logger, the command modules and the data-science scripts are not part of this model.
- EditPlan.RetakeRanges: states only that each removal is a take of some pair. The rule "every take but the latest of each group" is stated per group on `EditPlan.DropLatest`.
- TtsPrepare.PrepareSegments: states counts, durations and origin of the kept lines. The filtering and corrections are stated on `TtsPrepare.FilterGarbage` and `TtsPrepare.ApplyCorrections`.
- TtsPrepare.CorrectText: states when the fix count is zero and that the text is then unchanged. The corrected text itself is given by replace-all in definition order.

## Findings

| source | as written | input that shows it | evidently intended | confidence | as-written member | corrected member |
|---|---|---|---|---|---|---|
| plugins/media/media-fx/skills/video-editor/scripts/video_editor.py:960-975 | A line that starts past the canvas end gets a negative `actual_len`, and the last line also gets a negative `available`. The clip is cut with `pcm[:available]` and `pcm[:actual_len]`, and numpy then assigns a non-empty array to an empty slice and raises. | A 1 s video (44100 samples) and a line starting at 1.01 s with 1000 decoded samples, either the last line or followed by one at 2 s. | A clip starting at or past the canvas end writes nothing, and assembly goes on. | not executed | Assembler.AsWrittenPastEnd, Assembler.AsWrittenPastEndInner, Assembler.PastEndExample | Assembler.PlaceOne, Assembler.Assemble |
| cli/src/lib/installer.js:61 | `f.replace('.md', '')` removes the first `.md` in the name, not the extension (likewise at lines 70, 97 and 105). | An `agents/` directory holding `a.mdb.md` gives the agent `ab.md`. Installing then reads `agents/ab.md.md`, which does not exist, and fails. | Remove the trailing `.md` extension only, giving the agent `a.mdb`. | not executed | Installer.InnerMdExample, Installer.InnerMdInstallAsWritten | Installer.MdNames, Installer.DiscoverComponents, Installer.InnerMdInstallIntended |
