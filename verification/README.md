# Verbal communication skills trainer — a Dafny model of its core

The system is a web-based coach for spoken communication. A user records or types an answer, a
local language model critiques it, and the application keeps a per-module record of attempts
and scores. This project models the deterministic logic of that application, with every
external tool and service turned into a parameter:

- **The audio-to-text pipeline** (`src/voice_interface.py`):
  - `ensure_valid_audio` refuses missing or empty files and converts the input with ffmpeg;
  - `preprocess_audio` denoises the converted file;
  - `split_audio_into_chunks` cuts the clean audio into five-second chunks named `<stem>_chunk_<i>`;
  - `transcribe_audio` loads Whisper at most once, transcribes each chunk, and merges the
    stripped, non-empty texts with single spaces; a fixed message reports each failure stage;
  - `process_voice_input` packs the result with a success flag;
  - `cleanup_temp_files` sweeps out temporary files older than a threshold.

  ffmpeg's exit, the success of noise reduction, the length pydub reads, whether Whisper is
  installed, whether loading it raises, and what it returns per chunk form one oracle record
  (`VoiceInterface.AudioEnv`). The clock and the filesystem of the sweep are parameters too.
- **Skill training** (`src/skill_training.py`):
  - `extract_scores` is modelled as a left-to-right scanner for the pattern
    `(\d+(?:\.\d+)?)/10`, proved equal to the pattern in both directions;
  - the "exactly five scores, else 0" average of the three evaluators;
  - the default tracking record and its loading;
  - drawing a challenge, where `random.choice` becomes a `pick` index;
  - the running-mean update of `update_tracking`, proved to keep the average equal to the mean
    of the recorded scores.

  The tracking file is an in-memory map passed in and returned.
- **Stream aggregation** (the loop inside `generate_response` of `src/model_manager.py`): a
  fold over the streamed JSON lines. The HTTP response is given as its lines or as a request
  failure, and `json.loads` is a decoder parameter.
- **The chat handlers of `main.py`**: voice input into the chat history, the coach chat by text
  and by voice, drawing and showing a challenge, submitting a typed answer, and the numbered
  history table. The coach, the critic and the transcriber are function parameters. The
  module-level globals `selected_challenge` and `selected_time_limit` are modelled with their
  three Python states: never assigned, `None`, or a value.

Python behaviour is modelled explicitly. In the chat handlers and the training functions, an
exception the code does not catch (a `NameError`, `KeyError`, `TypeError` or
`ZeroDivisionError`) becomes `Outcomes.Crashed` with the exception kind. A `stat()` that raises
during the temporary-file sweep ends the sweep, recorded as `TempCleanup.Sweep.aborted`. The
filesystem and library exceptions listed under "Left out" are not modelled. The tracking module key is `lower().replace(" ", "_")`.
`str.strip` removes exactly the characters for which `str.isspace` holds.

## Model

| member | source | states |
|---|---|---|
| Text.Strip | src/voice_interface.py:143 | `str.strip()` returns an infix no longer than its input with no whitespace at either end |
| Text.StripEmptyIffBlank | main.py:49 | a string strips to nothing exactly when every character is whitespace, so `not s.strip()` is the blank test |
| Text.StripRemovesOuterSpace | src/voice_interface.py:143 | the stripped string is an infix `s[i..j]` with only whitespace before `i` and after `j` |
| Text.StripOfPadded | src/voice_interface.py:143 | conversely, whitespace around a middle with no whitespace at either end is exactly what `strip()` removes, so the infix is unique |
| Text.StripTrimmed | src/voice_interface.py:148 | stripping a string with no whitespace at either end returns it unchanged |
| Text.StripIdempotent | src/model_manager.py:59 | stripping twice is stripping once |
| Text.Join | src/voice_interface.py:148 | joining no parts gives the empty string; otherwise the first part is a prefix of the result |
| Text.JoinSnoc | src/voice_interface.py:145-148 | joining one more part at the end appends the separator and that part |
| Text.JoinTrimmed | src/voice_interface.py:148 | non-empty stripped parts joined by a space give a stripped string, empty only for no parts, ending with the last part's last character |
| Text.Lower | src/skill_training.py:105 | an ASCII capital maps to the matching small letter; every other character is unchanged |
| Text.ModuleKey | src/skill_training.py:105 | the key has the display name's length; each character is `_` for a space and the lower-cased character otherwise |
| Text.ModuleKeyIdempotent | src/skill_training.py:133 | a module key contains no space and no ASCII capital, so normalising it again changes nothing |
| Text.NatToString | src/voice_interface.py:101 | `str(n)` is a non-empty string of digits that starts with `0` only for zero |
| Text.ParseNatToString | src/skill_training.py:50 | reading back the decimal form of a number gives that number |
| Text.NatToStringInjective | src/voice_interface.py:101 | different chunk numbers give different decimal suffixes |
| Chunking.SpansFrom | src/voice_interface.py:99-100 | from chunk `first` on, slice k is `[(first+k)·C, min((first+k+1)·C, D))` and the last slice starts before D and reaches it |
| Chunking.Plan | src/voice_interface.py:99-101 | `range(0, D, C)` gives ceil(D/C) slices, slice k covering `[k·C, min((k+1)·C, D))`; a step of zero or less gives none |
| Chunking.PlanIndexIsStartDivSize | src/voice_interface.py:101 | each slice's number is its start `//` the chunk length, as written into its file name |
| Chunking.PlanBounds | src/voice_interface.py:99 | the number of slices n is the least with n·C ≥ D |
| Chunking.PlanTiles | src/voice_interface.py:99-100 | the slices are non-empty, start at 0, each ends where the next starts, the last ends at D; no slices exactly when D is 0 |
| Chunking.PlanCoversOnce | src/voice_interface.py:99-100 | every millisecond t < D lies in exactly one slice, the one numbered t // C |
| Chunking.PlanLastChunk | src/voice_interface.py:100 | the last slice lasts D mod C, or a whole C when that is 0 |
| Chunking.TwelveSecondsInFiveSecondChunks | src/voice_interface.py:30 | twelve seconds at the default chunk length give slices of 5 s, 5 s and 2 s |
| VoiceInterface.EnsureValidAudio | src/voice_interface.py:41-60 | a missing or empty file is refused; otherwise the result is `<stem>_converted` exactly when ffmpeg exits with 0, and None on any other exit, a missing ffmpeg, or another exception |
| VoiceInterface.PreprocessAudio | src/voice_interface.py:71-85 | denoising yields `<stem>_cleaned` when it succeeds and None when it raises |
| VoiceInterface.SplitAudioIntoChunks | src/voice_interface.py:93-109 | one chunk per planned slice, in order, chunk k written to `<stem>_chunk_<k>`; a load or export failure gives no chunks |
| VoiceInterface.ChunkFilesDistinct | src/voice_interface.py:101-102 | two different chunks are exported to different files, so no export overwrites another |
| VoiceInterface.ZeroDurationHasNoChunks | src/voice_interface.py:99 | audio of length 0 gives an empty chunk list |
| VoiceInterface.Kept | src/voice_interface.py:143-145 | the kept texts are no more than the chunk texts, each non-empty and stripped |
| VoiceInterface.KeptOne | src/voice_interface.py:143-145 | one chunk text contributes its stripped form, or nothing when that is empty |
| VoiceInterface.KeptAppend | src/voice_interface.py:141-145 | the texts kept from two runs of chunks are those kept from each, in order: each text is decided on its own |
| VoiceInterface.Collect | src/voice_interface.py:139-154 | the loop ends normally exactly when no chunk raised, keeping the stripped non-empty texts in chunk order; otherwise it reports the first chunk that raised, all chunks before it having been heard |
| VoiceInterface.CollectStopsAtFirstRaise | src/voice_interface.py:140-154 | once a chunk raises, what later chunks would return changes nothing |
| VoiceInterface.Merge | src/voice_interface.py:148-151 | the merged outcome is a non-empty stripped transcript or the no-speech sentinel, never an empty string |
| VoiceInterface.MergeKept | src/voice_interface.py:145-151 | for kept texts the final strip changes nothing: the transcript is their space-join, and no speech exactly when none was kept |
| VoiceInterface.KeptWhole | src/voice_interface.py:143-145 | texts already stripped and non-empty are all kept, whole and in order |
| VoiceInterface.ChunksOutcome | src/voice_interface.py:138-154 | once the audio is split: when every chunk is heard, the outcome is the merge of the kept chunk texts; when chunk k is the first whose transcription raises, it is the Whisper error with that exception's message; a transcript is non-empty and stripped |
| VoiceInterface.ReachesChunks | src/voice_interface.py:127-136 | after conversion, denoising and a successful load, the outcome is the split error for no chunks and otherwise decided by the chunks; the model is loaded iff it was unset |
| VoiceInterface.TranscribeAudio | src/voice_interface.py:112-156 | failures are reported in stage order: invalid input iff validation fails, noise error iff only denoising fails, unavailable iff only Whisper is missing; the model is loaded only while unset and never unloaded; a load that raises gives the Whisper error with its message and leaves the model unset; a transcript is non-empty and stripped |
| VoiceInterface.ArtifactsAreInOrder | src/voice_interface.py:118-134 | the files a call writes are a prefix of: the converted file, the cleaned file, then every chunk file in order |
| VoiceInterface.ArtifactsAreTraceable | src/voice_interface.py:48 | every temporary file a call writes is named after its input, starting `<stem>_converted` |
| VoiceInterface.ZeroLengthAudioIsSplitError | src/voice_interface.py:134-136 | a clean clip of zero length gives the "Could not split audio into chunks" error |
| VoiceInterface.UnavailableAfterConversion | src/voice_interface.py:155-156 | with Whisper missing, the input is still converted and denoised, no chunk is made, and the unavailable message is returned |
| VoiceInterface.TranscriptIsOrderedJoin | src/voice_interface.py:139-151 | when every chunk is heard, the result is the kept chunk texts joined by single spaces in chunk order, or the no-speech sentinel when none is kept |
| VoiceInterface.CollectThree | tests/unit_tests.py:33-38 | three heard chunks with stripped non-empty texts are all kept, in order |
| VoiceInterface.JoinThree | tests/unit_tests.py:50 | three texts join to the first, a space, the second, a space, the third |
| VoiceInterface.FirstChunkFileNames | src/voice_interface.py:101 | the first three chunk files are `<stem>_chunk_0`, `_chunk_1` and `_chunk_2` |
| VoiceInterface.TwelveSecondChunkFiles | src/voice_interface.py:99-103 | a twelve-second clip is exported to exactly three chunk files, numbered 0 to 2 |
| VoiceInterface.TwelveSecondResponses | src/voice_interface.py:140-142 | Whisper is asked about the three chunk files of a twelve-second clip, in order |
| VoiceInterface.TwelveSecondClip | tests/unit_tests.py:28-51 | a twelve-second clip whose three chunks are heard returns the three texts space-joined in order, and its first call loads the model |
| VoiceInterface.ModelLoadedAtMostOnce | src/voice_interface.py:129-131 | over any sequence of calls the model is loaded at most once, and never once it is loaded |
| VoiceInterface.ProcessVoiceInput | src/voice_interface.py:159-175 | the reply carries the run of `transcribe_audio` on the given file or the saved recording, its rendered outcome, and success exactly when that does not start with `Error:` |
| VoiceInterface.AsrMessageLacksErrorMark | src/voice_interface.py:154 | the Whisper error message, whatever the exception says, does not start with `Error:` |
| VoiceInterface.AsrFailureCountsAsSuccess | src/voice_interface.py:175 | a model load that raises, with any message, and a missing Whisper are both reported as success |
| VoiceInterface.ChunkFailureCountsAsSuccess | src/voice_interface.py:152-154 | when the first chunk whose transcription raises is chunk k, the reply carries that exception's message and is reported as success |
| VoiceInterface.Render | src/voice_interface.py:120-156 | a transcript is returned as is; the Whisper error is its prefix followed by the exception's message; the returned string starts with `Error:` exactly for invalid audio, failed noise reduction, a failed split, or a transcript that itself starts so |
| VoiceInterface.RecordingFile | src/voice_interface.py:165 | a recording is saved to a present, non-empty file named `temp_recording_<seconds>` |
| VoiceInterface.RecordingFilesDistinct | src/voice_interface.py:165 | recordings made in different seconds go to different files |
| VoiceInterface.InputFile | src/voice_interface.py:164-173 | a given path is passed on unchanged; a recording is passed on as its saved file, which is never empty |
| VoiceInterface.ProcessVoiceInputChecked | src/voice_interface.py:175 | success exactly when the pipeline produced a transcript or found no speech |
| VoiceInterface.CheckedAgreesOnConventionalMessages | src/voice_interface.py:174-175 | the corrected flag equals the as-written one on every outcome except a Whisper exception, a missing Whisper, and a transcript that itself starts with `Error:` |
| TempCleanup.Expired | src/voice_interface.py:182-183 | a file is expired when its modification time could be read and its age in hours exceeds the threshold |
| TempCleanup.ExpiredInSeconds | src/voice_interface.py:182-183 | an age over `max_age_hours` in hours is an age over `max_age_hours · 3600` whole seconds |
| TempCleanup.FirstUnreadable | src/voice_interface.py:181-182 | the loop reaches the entries before the first whose `stat()` raises, and every one of those has a modification time |
| TempCleanup.Visit | src/voice_interface.py:183-188 | over entries it reaches, the loop removes exactly the expired files that can be removed, logs and keeps the expired ones whose removal raises, and keeps every other one |
| TempCleanup.CleanupTempFiles | src/voice_interface.py:178-188 | the sweep is aborted exactly when some `stat()` raises; of the entries before the first such one, exactly the expired removable files are removed, the expired unremovable ones are logged, and the rest survive; that entry and all later ones stay, in order |
| TempCleanup.SweepIsIdempotent | src/voice_interface.py:181-185 | a second sweep at the same moment removes nothing and keeps everything the first one kept |
| TempCleanup.KeepAll | src/voice_interface.py:183 | the loop removes nothing from entries none of which is both expired and removable |
| TempCleanup.TwoAndThirtyHours | src/voice_interface.py:178 | with the 24-hour default, a 30-hour-old file is removed and a 2-hour-old one kept |
| TempCleanup.UnreadableFileStopsSweep | src/voice_interface.py:182 | a file whose `stat()` raises aborts the sweep, and a stale file listed after it is not removed |
| Scores.DigitRun | src/skill_training.py:48 | the run of digits starting at p ends at the first non-digit |
| Scores.DigitRunIsUnique | src/skill_training.py:48 | any end of a maximal digit run from p is that run's end |
| Scores.MatchAt | src/skill_training.py:48 | a match found at p ends its numeral after p and is followed by `/10` |
| Scores.MatchAtIsSound | src/skill_training.py:48 | a match the scanner reports is a numeral followed by `/10` |
| Scores.DecimalMatchIsFound | src/skill_training.py:48 | a numeral with a decimal part followed by `/10` is found where it starts |
| Scores.WholeMatchIsFound | src/skill_training.py:48 | a whole-number numeral followed by `/10` is found where it starts |
| Scores.MatchAtIsThePattern | src/skill_training.py:48 | the scanner finds a match at p ending at e exactly when `(\d+(?:\.\d+)?)/10` matches there |
| Scores.Scan | src/skill_training.py:49 | every reported match starts at a match of the pattern, and matches are reported left to right without overlapping |
| Scores.ScanCoversMatches | src/skill_training.py:49 | the scan from p misses no match start after p: each lies inside a reported match |
| Scores.ConsumedAfterMatch | src/skill_training.py:49 | after a match, later match starts are covered by that match or by the matches found after it |
| Scores.NumeralValue | src/skill_training.py:50 | `float(match)` of a numeral is non-negative |
| Scores.ParseNatAppend | src/skill_training.py:50 | reading digits `a` then digits `b` as one number is `a`'s value shifted by the length of `b`, plus `b`'s |
| Scores.NumeralValueIsDecimal | src/skill_training.py:48-50 | a whole numeral reads as its digits; for `w.f`, the value times ten to the number of fraction digits is the number the digits of `w` and `f` make together |
| Scores.Values | src/skill_training.py:50 | one value per match, in match order |
| Scores.ExtractScores | src/skill_training.py:38-50 | one non-negative score per match, in left-to-right order |
| Scores.ScanIsSound | src/skill_training.py:48-49 | every reported match is a match of the pattern, and matches come left to right without overlapping |
| Scores.ScanIsComplete | src/skill_training.py:48-49 | every place the pattern matches is reported or lies inside an earlier reported match |
| Scores.NoSlashTenNoScores | src/skill_training.py:49-50 | a text without `/10` gives no scores |
| Scores.TwoScoreMatches | src/skill_training.py:48 | in `8/10 7.5/10`, matches start at positions 0 and 5 and not at the space |
| Scores.TwoScoreTokens | src/skill_training.py:49 | `8/10 7.5/10` yields exactly two matches, in order |
| Scores.TwoScoreValues | src/skill_training.py:50 | the two numerals of `8/10 7.5/10` read as 8.0 and 7.5 |
| Scores.TwoScores | src/skill_training.py:38-50 | `extract_scores("8/10 7.5/10")` is `[8.0, 7.5]` |
| SkillTraining.InitialTracking | src/skill_training.py:13-23 | the defaults hold exactly the three skill modules, each equal to the zero record: no tasks, no attempts, average 0 and no history |
| SkillTraining.LoadTracking | src/skill_training.py:26-31 | the stored map when the file exists, the defaults when it does not |
| SkillTraining.AverageScore | src/skill_training.py:61 | five scores give the average whose fivefold is their sum; any other count gives 0; non-negative scores give a non-negative average (same code at lines 78 and 94) |
| SkillTraining.AverageBetween | src/skill_training.py:61 | five scores within bounds average within the same bounds |
| SkillTraining.RunSkill | src/skill_training.py:52-67 | the feedback holds the challenge, the model's evaluation verbatim, and the average of the scores extracted from that evaluation: non-negative, and 0 unless exactly five scores were found; only the impromptu evaluator reports `success` |
| SkillTraining.RunSkillScoreOutOfTen | src/skill_training.py:59-61 | when every score written is out of ten, the recorded average is between 0 and 10 |
| SkillTraining.GetRandomTrainingPrompt | src/skill_training.py:101-127 | an unknown module or empty topic list gives the fallback and no change; a template entry raises TypeError; a module missing from the tracking map raises KeyError; otherwise a topic of the module with a 60-second limit and instructions formatted with 60 |
| SkillTraining.DrawCountsOneTask | src/skill_training.py:119-121 | a draw adds exactly one task to the drawn module and changes nothing else |
| SkillTraining.EveryTopicCanBeDrawn | src/skill_training.py:115 | every topic of a module can be drawn |
| SkillTraining.UpdateTracking | src/skill_training.py:129-155 | a module missing from the map raises KeyError; otherwise attempts grow by one, the average moves to take in the new score (0 when the feedback has none), one entry is appended, and nothing else changes |
| SkillTraining.UpdateKeepsConsistent | src/skill_training.py:137-145 | an update of a record whose average is the mean of its history succeeds and keeps that so |
| SkillTraining.ReplayKeepsConsistent | src/skill_training.py:137-153 | successive updates of a consistent record never raise, append one entry each in order, and keep it consistent |
| SkillTraining.AverageIsMeanOfAttempts | src/skill_training.py:143-145 | starting from the defaults, a module's average after n > 0 attempts is the mean of the n recorded scores |
| SkillTraining.ConsistentIsMean | src/skill_training.py:143-145 | a consistent record with attempts holds the mean of its recorded scores |
| SkillTraining.SkillModulesHaveTopics | config/settings.py:17-159 | each of the three skill modules is configured with topics |
| SkillTraining.PresentationPromptRaises | config/settings.py:272 | asking for the presentation module's prompt raises TypeError, because its configured value is a plain string |
| ModelManager.Contribution | src/model_manager.py:51-52 | one line appends at most one text |
| ModelManager.Pieces | src/model_manager.py:42-56 | every text collected from the stream is non-empty |
| ModelManager.Aggregate | src/model_manager.py:38-68 | a request failure gives the connection message; the fold raises exactly when a non-string truthy `response` was collected; a reply is non-empty and stripped; a stream with nothing collected gives the no-response message |
| ModelManager.ReadLine | src/model_manager.py:43-56 | one iteration appends the line's contribution and notes a non-string one |
| ModelManager.ReadStream | src/model_manager.py:42-56 | the loop collects exactly the reference fold's texts, and notes a non-string one exactly when there is one |
| ModelManager.GenerateResponse | src/model_manager.py:38-68 | `generate_response` after the request returns what the reference fold defines |
| ModelManager.StreamSnoc | src/model_manager.py:43 | reading one more line extends the collected texts by that line's contribution |
| ModelManager.PiecesAppend | src/model_manager.py:42-56 | the texts of a stream split in two are the texts of each part, in order |
| ModelManager.PoisonedAppend | src/model_manager.py:51-52 | a stream collects a non-string value iff one of its parts does |
| ModelManager.InertLinesDoNotMatter | src/model_manager.py:44-56 | removing a blank, undecodable or response-less line anywhere leaves the result unchanged |
| ModelManager.InertPieces | src/model_manager.py:44-56 | such a line adds no text wherever it stands |
| ModelManager.InertNotPoisoned | src/model_manager.py:44-56 | such a line adds no non-string value wherever it stands |
| ModelManager.BlankAndMalformedAreInert | src/model_manager.py:44-56 | blank lines and undecodable lines contribute nothing |
| ModelManager.RepliesConcatenateInOrder | src/model_manager.py:59-64 | the reply is the stripped concatenation of the collected texts in stream order, or the no-response message when that is empty |
| ModelManager.TestOutput | tests/unit_tests.py:12-16 | a single line whose `response` is "Test output" gives "Test output" |
| App.ProcessVoiceInputAndChat | main.py:35-45 | exactly one user entry is appended; the transcript is passed on exactly when audio was given and its text is non-empty and does not start with "Error"; otherwise the entry is the no-audio or could-not-transcribe message |
| App.ChatWithCoachText | main.py:48-55 | a whitespace-only message leaves the history unchanged; any other appends the message and then the coach's answer to it |
| App.ChatWithCoachVoice | main.py:57-64 | the history only grows; an accepted transcript is followed by the coach's answer to it, anything else adds one entry |
| App.VoiceChatIsTextChatOfTranscript | main.py:57-64 | a spoken message transcribed to a non-blank text is answered exactly as if that text had been typed |
| App.RejectedOutcomes | main.py:41 | a rendered outcome is rejected exactly when it is a failure other than a missing Whisper, or a transcript starting with "Error" |
| App.ChatRejectsErrorMessages | main.py:41 | the voice handlers drop every pipeline failure except a missing Whisper, and drop a transcript that starts with "Error"; silent audio passes as speech |
| App.ShowChallenge | main.py:27-32 | a missing prompt shows the warning and keeps the globals; a prompt shows its heading, never the warning, and sets both globals; the countdown timer display is set to the empty string |
| App.GenerateChallenge | main.py:25-32 | the handler raises exactly when the draw raises, and saves the draw's tracking map |
| App.ChallengeIsAlwaysShown | main.py:26-31 | every successful draw is shown and sets both globals to the challenge and its limit |
| App.UnknownModuleSelectsFallback | main.py:26-31 | for a module without prompts the fallback text becomes the selected challenge with limit 0, and no task is counted |
| App.SkillOf | main.py:78-87 | a module name selects an evaluator only when it is that evaluator's display name |
| App.SkillOfDisplayName | main.py:78-87 | the three display names select their own evaluators, and no other name selects one |
| App.EvalText | main.py:80-86 | the coach's reply starts with the coach label and ends with the model's evaluation verbatim |
| App.EvalTextIsNotInvalidModule | main.py:88-91 | an evaluation reply is never the invalid-module message |
| App.Answer | main.py:75-91 | the answer is shown under the "You" label, then one coach entry that is the invalid-module message exactly when the module is unknown; an unknown module changes no record |
| App.Evaluate | main.py:78-93 | the branch raises exactly when `update_tracking` raises, and otherwise shows the evaluation and saves the updated record |
| App.SkillTrainingText | main.py:68-94 | an unassigned global raises NameError; a None global asks for a challenge and records nothing; otherwise the answer is handled; the history only grows |
| App.AnswerBeforeChallengeRaises | main.py:69 | answering before any challenge was drawn raises NameError for `selected_challenge` |
| App.AnswerBeforeChallengeAsksForOne | main.py:69-72 | with both globals None at start-up, an early answer asks for a challenge and records nothing; after a draw the request never recurs |
| App.StoredAttempts | main.py:192-197 | a missing tracking file, or a module with no record, gives no attempts; otherwise the module's stored history |
| App.DetailedHistory | main.py:211-224 | the table rows are the module's stored attempts, in order, numbered from 1; a missing file gives no rows |
| App.AppendedAttemptIsLastRow | main.py:216-223 | appending an attempt to a module's record adds one row at the end, numbered after the others |
| App.AnswerIsEvaluated | main.py:78-86 | with both globals set and a known module, the reply is that module's evaluation |
| App.AnswerIsRecorded | main.py:91-93 | with both globals set and a known module, the answer is recorded and the chat ends with the answer and the evaluation |
| App.TrainingAddsOneRow | main.py:68-94 | an answer for a known module with a consistent record succeeds, keeps the record consistent, and adds exactly one history-table row holding the challenge, answer, evaluation and score |
| App.InvalidModuleRecordsNothing | main.py:87-89 | an unknown module name leaves the tracking map as it was |

## Left out

- External tools are oracle values, not models: the ffmpeg subprocess, soundfile, noisereduce, pydub and Whisper. So are their audio formats and sample rates, and the HTTP request of `generate_response`.
- Logging and `generate_response_parallel` are left out: they do not change any returned value.
- ModelManager.GenerateResponse: every call is modelled as a fresh request. Under the `cached`/`lru_cache` layers, a repeated prompt gets the first reply back without a new request, error replies included: a connection-failure message keeps coming back after the server is up again.
- The `ImportError` fallback for Whisper is an `AudioEnv.whisperInstalled` flag. The `ImportError` branch of `process_voice_input` is left out: it cannot be reached once `soundfile` is imported at the top of the module.
- `process_voice_input` names a recording with `int(time.time())`; the clock is a parameter.
- VoiceInterface.SplitAudioIntoChunks: when an export fails partway, the chunk files already written stay on disk; the model drops them from a call's artifacts, as the returned empty list does.
- `schedule_cleanup` is left out: it is a `threading.Timer` loop, and `threading` is never imported in that module.
- TempCleanup.Expired: ages are compared in exact arithmetic, not Python floats.
- TempCleanup.CleanupTempFiles: the order in which `glob("*")` lists the directory is a parameter. A `stat()` that raises ends the sweep with `aborted` set; the exception itself, which propagates to the caller, is not modelled.
- VoiceInterface.EnsureValidAudio: the file is assumed to stay in place between `exists()` and `stat()`; a `stat()` that raises after the file vanished is not modelled.
- VoiceInterface.ProcessVoiceInput: writing a recording with `sf.write` is assumed to succeed; any exception other than `ImportError` from it would propagate, and is not modelled.
- `save_tracking` and the JSON file are left out: the tracking map is passed in and returned.
- Scores.NumeralValue: the value is an exact real; rounding to the nearest float is not modelled.
- SkillTraining.UpdateTracking: the running average is computed in exact reals rather than floats.
- The critique prompt texts and their `.format` are left out; the critic is a function of skill, challenge and answer.
- Settings.Prompts: each skill module's instructions are stored split around `{time_limit}`, as the text before and after it. The critique prompts are not stored.
- Text.Lower: only ASCII capitals are lower-cased; Python's `str.lower` also maps other Unicode letters.
- Text.IsDigit: only ASCII digits; Python's `\d` also matches other Unicode decimal digits.
- `src/conversation.py` (`get_chat_feedback`) is not part of this model; it is the `Coach` parameter.
- `src/presentation_assessment.py` is not part of this model, and neither are the presentation handlers of `main.py`.
- `src/evaluation_analysis.py` and `src/olla_setup.py` are not part of this model.
- `get_overall_stats` is left out: it is a display table with `round(..., 2)` and title-casing.
- App.DetailedHistory: the "Average Score" column shows the exact stored average; `round(..., 2)` of it is not modelled.
- `start_countdown` and the Gradio layout are left out.
- `skill_training_voice` is left out. The definition at main.py:97 is dead, replaced by the one at main.py:127. That one is `process_voice_input_and_chat` (modelled) followed by the evaluation branch of `skill_training_text` (modelled) without the labels.
- ModelManager.Aggregate: only lines that decode to a JSON object are modelled. A line that decodes to a list, string or number is left out; there `"response" in data` is a membership or substring test, or raises.
- App.SkillTrainingText: when `update_tracking` raises, the history entries already appended in place are lost with the Result. The transient "Transcribing..." and "Thinking..." placeholders are left out; each is overwritten before the handler returns.
- A `None` module from an unselected drop-down (raising AttributeError on `.lower()`) is left out; module names are strings.
- SkillTraining.PresentationPromptRaises: the display name is given through the requirement that its key is `presentation_assessment`, not as a literal string.

## Findings

| source | as written | input that shows it | evidently intended | confidence | as-written member | corrected member |
|---|---|---|---|---|---|---|
| src/voice_interface.py:175 | `success` is `not transcription.startswith("Error:")`, but the Whisper error message starts `Error transcribing audio:` and the missing-Whisper message starts `Transcription service` | a valid clip when `whisper.load_model` raises, or when transcribing a chunk raises, whatever the message; or any valid clip with Whisper not installed | `success` is false for every failure of the pipeline | not executed | VoiceInterface.AsrFailureCountsAsSuccess | VoiceInterface.ProcessVoiceInputChecked |
| main.py:69 | the check reads `selected_challenge`, which no statement at module level assigns (main.py:14-15 assign `selected_topic` and `selected_time_limit`) | submitting a typed answer before clicking "Get Your Challenge" raises NameError | both globals start as `None`, so the early answer gets the "generate a challenge first" message | not executed | App.AnswerBeforeChallengeRaises | App.AnswerBeforeChallengeAsksForOne |
