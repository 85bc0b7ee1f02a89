# Kokoro-Local-TTS: a verified model of its decision logic

Kokoro-Local-TTS is a local text-to-speech application built around the Kokoro-82M model.
It synthesises speech from text, dubs `.srt` subtitle files, mixes voice packs and turns
audio into a video. This project models, in Dafny, the parts of it that decide
something: its timing arithmetic, file naming, validation and ordering rules. The neural
synthesis and the media tools are modelled as oracles. One module per source file:

- `SrtLogic` (`srt_logic.py`) is the subtitle dubbing pipeline.
  - Cues become entries with times in milliseconds, the pause before each cue, and scratch file names.
  - Each cue's speech is synthesised. It is re-synthesised once at a higher speed when it runs
    long, then stretched by a tool chain that always produces output, or padded with silence to the window.
  - The pause and speech files are written into a scratch folder. The non-empty ones are
    concatenated in order, and the folder is removed.
  - The module globals (`USE_FFMPEG`, `FFMPEG_PATH`, `srt_voice_name`) are the fields of the class `SrtSettings`.
- `TtsLogic` (`tts_logic.py`) covers three things:
  - the current-model switch, which loads a model only when it changes;
  - the voice-pack check, which deletes rejected uploads;
  - the voice choice, save-path clean-up and pass-through arguments of a synthesis request, and the arguments `podcast_maker` hands to `podcast`.
  Its state (`config.CURRENT_MODEL`, the models loaded so far, the files on disk) is the class `Runtime`.
- `VideoLogic` (`video_logic.py`) covers `HH:MM:SS` formatting, the ffprobe duration probe, and the
  ffmpeg argument list for turning an audio file and a cover into a video.
- `DownloadModel` (`download_model.py`) covers:
  - the hash-gated copy of downloaded files;
  - the selection of English voice files;
  - pairwise voice mixing and its names;
  - the length-sorted voice-name listing.
- `VoiceMixer` (`voice_mixer.py`) covers:
  - loading the voice table and its display captions;
  - parsing and validating a `voice*weight + ...` formula into a weighted mean;
  - the path of the saved mix.
  The voice table is the field of the class `Mixer`.
- `UiTabs` (`ui_tabs.py`) is the female/male/other partition of the voice list.
- Support modules:
  - `Wrappers`: `Option` and `Result`.
  - `Text`: Python string methods (`strip`, `split`, `replace`, `capitalize`, `in`, `startswith`, `endswith`) and decimal digits.
  - `Paths`: `os.path.join`, `basename` and `splitext` on POSIX paths.

Conventions of the model:

- **Oracles.** Every external effect is a parameter:
  - the synthesiser is `(text, voice, speed) -> Option<Clip>`, where `None` means it raised;
  - ffmpeg and librosa are `(Clip, factor) -> Option<Clip>`;
  - ffprobe is a function from the command line to an optional duration;
  - the Hugging Face download is `(repo, filename) -> Option<(cached path, bytes)>`;
  - SHA-256 is an opaque `bytes -> string`;
  - `float()` is `string -> Option<real>`;
  - `torch.load` is `path -> real`;
  - the clock and the uuid fragments are plain arguments.
- **Filesystem.** Modelled as a map from path to content:
  - an audio clip (duration in ms, size in bytes) for the dubber;
  - a size for the voice-pack check;
  - bytes for the downloader;
  - a tensor value for the mixer.
  A voice tensor is one real number, since every operation on it is element-wise.

## Model

| member | source | states |
|---|---|---|
| SrtLogic.TimeRoundTrip | srt_logic.py:168-169 | a cue time in ms is h·3600000 + m·60000 + s·1000 + ms, and it converts back to the same canonical timestamp |
| SrtLogic.CleanTextSpec | srt_logic.py:175 | entry text has no newline and no leading or trailing whitespace; cleaning it again changes nothing |
| SrtLogic.ReadSrtFile | srt_logic.py:161-182 | one entry per cue, in cue order: number i+1, start and end in ms, cleaned text, names "{i+1}.wav" and "{i+1}_before_pause.wav"; the pause is start minus the previous end (0 for the first entry), possibly negative |
| SrtLogic.TimelineReachesLastEnd | srt_logic.py:165-181 | in a chained entry list, the pauses plus the cue lengths add up to the last cue's end |
| SrtLogic.AudioNameNotPauseName | srt_logic.py:177-178 | a speech file name never equals a pause file name |
| SrtLogic.NamesDiffer | srt_logic.py:177-178 | different entry numbers give different speech names and different pause names |
| SrtLogic.NamesEncodeNumber | srt_logic.py:177-178 | the digits in front of ".wav" or "_before_pause.wav" read back as the entry number |
| SrtLogic.NamesHaveNoSlash | srt_logic.py:177-178 | entry file names are non-empty plain names, so they stay inside the scratch folder |
| SrtLogic.EntryListNamedByPosition | srt_logic.py:172-178 | the entries read from the cues are numbered and named by position |
| SrtLogic.EntryNamesDistinct | srt_logic.py:172-178 | entries named by position have pairwise distinct, slash-free file names |
| SrtLogic.WavExport | srt_logic.py:110-112 | an exported WAV has the requested duration and a non-empty file |
| SrtLogic.SpeedFactorAboveOne | srt_logic.py:80-81 | when the clip overruns a positive window, the speed factor measured/target is above 1 |
| SrtLogic.YourTtsForSrt | srt_logic.py:71-85 | synthesises at speed 1.0; re-synthesises exactly once, iff the window is positive and overrun, at factor measured/target > 1; fails iff a synthesis it needs fails |
| SrtLogic.ChangeSpeed | srt_logic.py:58-69 | ffmpeg's output iff ffmpeg is enabled and succeeds; else librosa's output iff librosa succeeds; else the input copied verbatim, so there is always an output |
| SrtLogic.SpeedupLibrosa | srt_logic.py:49-56 | librosa's output iff librosa succeeds, otherwise a verbatim copy of the input; never ffmpeg |
| SrtLogic.TextToSpeechSrt | srt_logic.py:92-117 | the clip is kept when the window is ≤ 0 or matched; an overrun is stretched by factor > 1 through the fallback chain; an underrun is padded with target − measured ms of silence, so the output is exactly the window |
| SrtLogic.StretchOnlyAfterResynthesis | srt_logic.py:80-83 | a clip is stretched only after the first synthesis overran and a second one was made |
| SrtLogic.FitsWindowUnlessOverrun | srt_logic.py:99-114 | with a positive window and no overrun, the output lasts exactly the window |
| SrtLogic.MakeSilence | srt_logic.py:119-123 | a positive pause writes a silent non-empty file of that length at the path; a pause ≤ 0 writes nothing; no other path changes |
| SrtLogic.KeptSpec | srt_logic.py:133-140 | concatenation keeps, in order, exactly the existing non-empty paths; keeping and total length split over joined path lists |
| SrtLogic.KeptMembers | srt_logic.py:136-137 | a path is kept iff it is listed, exists and is non-empty |
| SrtLogic.JoinedIsSumOfKept | srt_logic.py:133-140 | the joined length is the sum of the kept files' lengths |
| SrtLogic.ConcatenateAudioFiles | srt_logic.py:133-140 | the loop keeps exactly the specified paths, the output lasts the joined length, and only the output path is written |
| SrtLogic.SegmentPathsShape | srt_logic.py:147-156 | 2N paths alternate: entry k's pause at 2k, its speech at 2k+1 |
| SrtLogic.Scratch | srt_logic.py:147-156 | a failed dub names an entry index inside the list |
| SrtLogic.ScratchFailsFrom | srt_logic.py:147-156 | a synthesis failure at entry i aborts the dub with index i |
| SrtLogic.ScratchFailsAtFirst | srt_logic.py:147-156 | the scratch writes succeed iff every entry's speech can be made; on failure the index is the first entry that cannot |
| SrtLogic.ScratchContents | srt_logic.py:147-156 | in a fresh folder, the scratch holds each entry's speech, its pause exactly when the pause is positive, nothing else inside the folder, and no other path of the clip map changes |
| SrtLogic.RemoveTree | srt_logic.py:159 | removing the folder drops exactly the paths under it and keeps the others unchanged |
| SrtLogic.SrtToDub | srt_logic.py:142-159 | fails iff a synthesis fails, with its index, leaving the files of the earlier entries and that entry's pause; else it joins the 2N segment paths in order, writes a track of the joined length, and removes the scratch folder |
| SrtLogic.DubLength | srt_logic.py:142-158 | the dub lasts the sum of the positive pauses plus the speech outputs |
| SrtLogic.DubIsTimeline | srt_logic.py:142-158 | with no overlapping cues and outputs that fit their windows, the dub follows the subtitle timeline |
| SrtLogic.DubMatchesSubtitles | srt_logic.py:142-158 | under those conditions the dub ends exactly at the last cue's end |
| SrtLogic.DubLeavesOnlyTrack | srt_logic.py:158-159 | afterwards nothing is left under the scratch folder, the track is at its path, and no other path of the clip map changes |
| SrtLogic.ClockStampSpec | srt_logic.py:46 | `%I_%M_%p` is "hh_mm_AM/PM" with hour 01-12, and it encodes the clock hour and minute |
| SrtLogic.DubPathSpec | srt_logic.py:42-47 | the dub is BASE_PATH/TTS_DUB/{stem}_{language}_{time}_{random}.wav, a .wav file whose name starts with the subtitle's stem and language |
| SrtLogic.FolderShape | srt_logic.py:125-131 | the scratch folder is BASE_PATH/dummy/{stem}_{random4} |
| SrtLogic.DubOutsideScratch | srt_logic.py:44 | the dub path never lies inside the scratch folder, so removing the folder keeps the dub |
| SrtLogic.SrtSettings.constructor | srt_logic.py:22-23 | at start-up ffmpeg is off, its path is empty and the voice is "af_bella" |
| SrtLogic.SrtSettings.DetectFfmpeg | srt_logic.py:25-38 | on Windows the bundled ffmpeg.exe is tried when it exists, else "ffmpeg"; ffmpeg is on iff `-version` runs, and only then is the path set |
| SrtLogic.SrtSettings.SelectVoice | srt_logic.py:196-202 | the custom pack becomes the voice iff the voice-pack check accepts it, else the chosen voice; a rejected pack is deleted |
| SrtLogic.SrtSettings.SrtProcess | srt_logic.py:184-207 | no upload or a name not ending ".srt" does nothing; otherwise it selects the voice, names the dub and folder, reads the entries and dubs them with the current ffmpeg flag; with at least one cue, the synthesis switches the model to kokoro-v0_19.pth (srt_logic.py:72-74), loading it only if it was not current |
| TtsLogic.ModelPathSpec | tts_logic.py:18-20 | the half model loads from ./KOKORO/fp16/, any other from ./KOKORO/, by its own file name |
| TtsLogic.After | tts_logic.py:29 | after any calls the current model is the last name asked for |
| TtsLogic.LoadsAppend | tts_logic.py:15-29 | the loads of two runs of calls are the loads of the first run, then those of the second starting from its current model |
| TtsLogic.LoadCount | tts_logic.py:15-29 | a run of calls loads exactly as many times as the requested name differs from the current one |
| TtsLogic.RepeatLoadsOnce | tts_logic.py:15-16 | asking twice in a row for the same model loads it once |
| TtsLogic.SameNameLoadsOnce | tts_logic.py:15-29 | any number of calls with one name load as one call does and leave that name current |
| TtsLogic.ValidVoicePackSuffix | tts_logic.py:44-47 | a pack is accepted iff it exists, is at most 5·1024·1024 bytes and its `splitext` extension is ".pt": the name ends in ".pt" after a non-dot character of its last component |
| TtsLogic.ManageSettles | tts_logic.py:42-52 | an existing file that fails the check is deleted and an accepted one kept; no other file changes, the verdict does not change, and checking twice removes nothing more |
| TtsLogic.SanitizeSpec | tts_logic.py:34 | the save path loses every '\n' and '\r', keeps every other character, and cleaning twice is cleaning once |
| TtsLogic.Runtime.constructor | config.py:14 | no model is current at start-up |
| TtsLogic.Runtime.UpdateModel | tts_logic.py:13-30 | the same name is a no-op with "Model already set to"; any other loads its model path and becomes current, "Model updated to" |
| TtsLogic.Runtime.ManageFiles | tts_logic.py:42-52 | returns the voice-pack check and deletes a rejected existing file |
| TtsLogic.KeepSilence | tts_logic.py:58-60 | a zero minimum silence keeps 50 ms; otherwise the ms value is the seconds · 1000 truncated toward zero |
| TtsLogic.KeepSilenceDefaults | tts_logic.py:54-60 | the default 0.20 s keeps 200 ms, and `podcast_maker`'s default 50 (tts_logic.py:88) keeps 50000 ms |
| TtsLogic.Runtime.TextToSpeech | tts_logic.py:54-86 | switches model, takes the pack path from the upload's name or the string, uses it iff the check accepts it, and passes the cleaned save path, speed, trim, padding, remove-silence flag and `keep_silence` to `tts_maker`, with the source's defaults |
| TtsLogic.Runtime.PodcastMaker | tts_logic.py:88-100 | switches model (loading only on a change) and passes the text, flag, `keep_silence` in ms and speed to `podcast`, with the source's defaults |
| VideoLogic.Clock | video_logic.py:12-14 | hours, minutes and seconds with minutes, seconds < 60 and 3600·h + 60·m + s = t |
| VideoLogic.FormatDurationHhmmss | video_logic.py:10-11 | "N/A" exactly for a missing, non-numeric or negative input |
| VideoLogic.Fields | video_logic.py:15-18 | every field is at least two digits |
| VideoLogic.FieldsOfDuration | video_logic.py:12-18 | the text splits on ':' into the padded fields of the clock |
| VideoLogic.DurationShape | video_logic.py:15-18 | three fields iff t ≥ 3600, otherwise two; minutes and seconds are exactly two digits |
| VideoLogic.DurationRoundTrip | video_logic.py:8-18 | reading the text back gives the seconds for a valid input and nothing for "N/A" |
| VideoLogic.ParseFormatted | video_logic.py:12-18 | the formatted text of t seconds reads back as t |
| VideoLogic.UnavailableDoesNotParse | video_logic.py:11 | "N/A" is not a duration |
| VideoLogic.GetAudioDuration | video_logic.py:20-34 | no duration for a missing audio or ffprobe, else the probe's answer to the fixed command |
| VideoLogic.RoundToSeconds | video_logic.py:12 | rounds ms to the nearest second, ties to even like Python's `round` |
| VideoLogic.SecondsTextExact | video_logic.py:99 | the `-t` value has exactly three decimals and reads back as the duration in ms |
| VideoLogic.ImageCoverIff | video_logic.py:64-65 | a cover is an image iff its lower-cased extension is one of the five listed |
| VideoLogic.ImageExtensionShape | video_logic.py:64 | every listed extension is a dot then dot-free, slash-free text |
| VideoLogic.Resolution | video_logic.py:67 | 1280×720 iff the choice is "720p (Fast)", otherwise 1920×1080 |
| VideoLogic.VideoPathSpec | video_logic.py:71-74 | the output is kokoro_videos/<audio stem>.mp4 |
| VideoLogic.CommandEnds | video_logic.py:76-104 | the command starts `ffmpeg -y` and ends `-r R <video>`, preceded by `-t d` for a positive duration, else `-shortest` |
| VideoLogic.CommandInputs | video_logic.py:79-85 | an image cover gives `-loop 1 -framerate R -i cover -i audio`; any other cover gives `-stream_loop -1` inputs and the two `-map`s; then the scale/pad filter |
| VideoLogic.CommandEncoder | video_logic.py:87-94 | an "nvenc" choice gives h264_nvenc -preset p4; otherwise libx264 with `-tune stillimage` only for image covers |
| VideoLogic.BuildCommand | video_logic.py:76-104 | the step-by-step command equals the specified argument list |
| VideoLogic.GetMediaDetails | video_logic.py:36-49 | three "N/A" for a missing file; else its basename, size text and formatted duration |
| VideoLogic.GenerateVideoFromMedia | video_logic.py:51-132 | checks ffmpeg, then the audio, then the cover, with no command built on an error; else runs the command and reports the video and its details, the ffmpeg failure, or the crash text |
| DownloadModel.GetFileHash | download_model.py:23-31 | None iff the file does not exist, otherwise its digest |
| DownloadModel.DownloadOne | download_model.py:43-59 | an error iff the download fails, and then nothing changes |
| DownloadModel.CopyIfChanged | download_model.py:48-56 | copies iff the destination's digest differs from the cached file's |
| DownloadModel.CopyDecision | download_model.py:48-56 | a missing destination is always copied, an identical one never; afterwards the destination holds the content, and no other file changes |
| DownloadModel.DownloadAll | download_model.py:40-59 | one outcome per filename |
| DownloadModel.ErrorsAreIsolated | download_model.py:40-59 | entry i is an error iff its own download fails; the other files are still processed |
| DownloadModel.DownloadFiles | download_model.py:33-59 | the loop computes the specified disk and log, one outcome per filename |
| DownloadModel.Reprefixed | download_model.py:83 | each request is "voices/" + the selected name |
| DownloadModel.VoiceSelection | download_model.py:77-78 | a name is selected iff it starts with 'a' or 'b' and is a repo entry under "voices/" with every "voices/" removed |
| DownloadModel.EnglishAppend | download_model.py:78 | the selection keeps the listing's order |
| DownloadModel.RequestIsRepoName | download_model.py:77-83 | for an entry with a single "voices/", the request names the repo entry itself |
| DownloadModel.GetVoiceModels | download_model.py:61-83 | a failed listing downloads nothing; otherwise the selected voices are downloaded into ./KOKORO/voices |
| DownloadModel.DownloadBaseModels | download_model.py:85-89 | the full model into ./KOKORO, then the half model into ./KOKORO/fp16, from the mirror repo |
| DownloadModel.BaseModelDestinations | download_model.py:17-21 | the two downloads land where `update_model` loads them from: the full model in ./KOKORO, and the half model, whose base name is the one `update_model` treats specially, in ./KOKORO/fp16 |
| DownloadModel.PairsCount | download_model.py:131 | n voices give n(n−1)/2 pairs |
| DownloadModel.PairsMembers | download_model.py:131 | the pairs are exactly (v[i], v[j]) with i < j in listing order |
| DownloadModel.MixNameParts | download_model.py:133 | the name is v1, then "_mix_", then v2 |
| DownloadModel.MixNameInjective | download_model.py:133 | first voices without "_mix" give distinct pairs distinct mix names |
| DownloadModel.MixNamesCollide | download_model.py:133 | ("af", "mix_bella") and ("af_mix", "bella") share the mix name |
| DownloadModel.PairsDistinct | download_model.py:131 | distinct voices give distinct pairs |
| DownloadModel.MixFilesDistinct | download_model.py:124-141 | over distinct voices without "_mix", a completed run creates n(n−1)/2 mixes with distinct names |
| DownloadModel.MixFailureKeepsPrefix | download_model.py:137-141 | a failed run leaves exactly the mixes the pairs before the failing one saved |
| DownloadModel.MixOne | download_model.py:132-137 | fails iff a voice file is missing; else it writes the mean of the two voices at the mix name and keeps the other files |
| DownloadModel.MixCreatesEveryPair | download_model.py:139-141 | a successful run creates one mix per pair, named and stored |
| DownloadModel.MixFailureSticks | download_model.py:139-141 | the first failing pair ends the run |
| DownloadModel.MixAllVoices | download_model.py:124-141 | the loop mixes every pair of the listed .pt stems, as MixAll states; a failure returns the missing file and the mixes saved before it |
| DownloadModel.SortByLength | download_model.py:152 | the listing is sorted by length and is a permutation of the names |
| DownloadModel.SortStable | download_model.py:152 | names of equal length keep their listing order |
| DownloadModel.LinesSplit | download_model.py:153-155 | the file is the names one per line, each ending with a newline |
| DownloadModel.SaveVoiceNames | download_model.py:143-156 | the loop writes the length-sorted .pt stems one per line |
| VoiceMixer.KeysOfListing | voice_mixer.py:17-21 | the table's keys are the listed ".pt" files without ".pt", in first-seen order, each once |
| VoiceMixer.LastFileWins | voice_mixer.py:18-21 | a key's tensor is loaded from the last file with that key |
| VoiceMixer.LastSegment | voice_mixer.py:29 | the last '_' segment contains no '_' |
| VoiceMixer.DisplayNameReadsBack | voice_mixer.py:23-32 | apart from the three fixed captions: "f_" is female and else "m_"/"b_" male, with the capitalised last segment and the US flag iff the name starts with 'a'; any other name is its capitalised self with the neutral face |
| VoiceMixer.GetVoices | voice_mixer.py:14-33 | no folder gives empty results; else the loaded table, and exactly one caption per loaded voice |
| VoiceMixer.ParseTerm | voice_mixer.py:43-47 | a term that reads names a loaded voice; a failure is a format, weight or unknown-voice error |
| VoiceMixer.ParseTermCases | voice_mixer.py:43-47 | "Invalid term format" iff the stripped term does not have exactly one '*'; then a weight that does not parse; then "Unknown voice" for an unloaded name; else the stripped name and the weight |
| VoiceMixer.TermReadsBack | voice_mixer.py:43-47 | "name*weight" from trimmed parts without '*' reads back as that name and weight |
| VoiceMixer.FormulaRoundTrip | voice_mixer.py:37-50 | well-formed terms joined with '+' split back into the terms, read back as exactly their pairs in order, and the formula is their weighted mean, or None when the total weight is not positive |
| VoiceMixer.ParseTermsSpec | voice_mixer.py:42-47 | the terms read iff every term reads, in order; otherwise the first failing term's error |
| VoiceMixer.TermFailureSticks | voice_mixer.py:44-47 | once a term fails, later terms do not matter |
| VoiceMixer.MixAccepted | voice_mixer.py:42-50 | the mix succeeds iff every term reads; else it reports the first failing term's error |
| VoiceMixer.MixErrorIsTermError | voice_mixer.py:42-47 | a formula with terms fails only with a format, weight or unknown-voice error |
| VoiceMixer.FormulaChecks | voice_mixer.py:37-42 | blank formula iff "Empty voice formula"; non-blank with no voices iff "No voices loaded."; otherwise the mix of its '+' terms |
| VoiceMixer.MixIsWeightedMean | voice_mixer.py:48-50 | with all terms known, there is a mix iff the total weight is positive, and mix · total = the weighted sum |
| VoiceMixer.SameVoiceMean | voice_mixer.py:48-50 | terms that all name one voice average to that voice |
| VoiceMixer.SingleVoiceMix | voice_mixer.py:48-50 | a formula over a single voice mixes to that voice |
| VoiceMixer.TermOrderIrrelevant | voice_mixer.py:42-50 | swapping two blocks of valid terms does not change the mix |
| VoiceMixer.AppendSums | voice_mixer.py:48-49 | one more term adds weight·voice to the sum and weight to the total |
| VoiceMixer.MixTerms | voice_mixer.py:40-50 | the loop over the terms computes the specified mix |
| VoiceMixer.Mixer.constructor | voice_mixer.py:35 | the module's table is what loading the folder gives |
| VoiceMixer.Mixer.ParseVoiceFormula | voice_mixer.py:37-50 | computes the specified formula value on the current table |
| VoiceMixer.Mixer.GetNewVoicePath | voice_mixer.py:52-70 | each error becomes "Failed to create voice: " + its message, a zero total gives "Could not generate a voice from the formula.", and otherwise it returns BASE_PATH/dummy/weighted_normalised_voices.pt and the mixed value saved there |
| UiTabs.InCategoryMembers | ui_tabs.py:141-147 | a name is in a group iff it is listed and its category is that group |
| UiTabs.GroupsPartition | ui_tabs.py:141-147 | the three groups together are a permutation of the voice list |
| UiTabs.GroupsKeepOrder | ui_tabs.py:141-147 | each group keeps the relative order of the list |
| UiTabs.GroupRules | ui_tabs.py:142-147 | "m_" means male even with "f_"; otherwise female iff "f_" or "af", else other |
| UiTabs.GetVoiceNamesJson | ui_tabs.py:138-148 | the loop fills the three groups as specified |

## Left out

- Neural synthesis, `torch` tensors, pydub, librosa, soundfile, ffmpeg and ffprobe are oracles.
  - The model states what is decided about their results, not what they compute.
  - A voice tensor is one real number, and tensor arithmetic is exact real arithmetic.
- `.srt` parsing and tag stripping (pysrt) are not modelled: the entry builder takes cues that are already parsed.
- Durations are integer milliseconds or seconds.
  - The `atempo={factor}` and `{size:.2f} MB` texts are not built. The size text is a parameter.
  - `round()` over floats in `format_duration_hhmmss` becomes an integer input; `RoundToSeconds` rounds a probe's ms the same way.
  - `minimum_silence * 1000` is exact real arithmetic before `int()` truncates it, so float rounding (0.07 · 1000 = 70.00000000000001) is not modelled. A `None` minimum silence, which `not minimum_silence` also sends to 0.05, is not passed.
  - `float()` of a weight is an oracle, and its error message quotes the text as given.
- pydub padding yields exactly the requested length. Real pydub may differ by a frame.
- SrtLogic.YourTtsForSrt: the `update_model` call inside `text_to_speech` is not modelled there. The synthesiser oracle stands for the whole call, which passes `trim=1.0` and leaves the other `text_to_speech` arguments at their defaults (`TtsLogic.Runtime.TextToSpeech` states what those become).
  - `SrtLogic.SrtSettings.SrtProcess` makes that model switch once, before the dub, when there is a cue. The later calls with the same name change nothing.
  - A `build_model` that raises is not modelled: loading is total.
- SrtLogic.DubLeavesOnlyTrack: "no other path changes" is about the clip map only. The synthesiser's own output file (`tts_file_name`, tts_logic.py:61, 82-85) is copied, not moved (srt_logic.py:85), so one or two such files per entry stay on disk; the oracle's writes are not in the clip map.
- SrtLogic.ScratchContents: "no change outside the folder" is likewise about the clip map only; the synthesiser's output files written outside it are not modelled.
- Temporary files are not modelled: the `cache` folder, its uuid names, `shutil.move` and the final `os.remove` in `text_to_speech_srt`. Only the clip written to the entry's path is.
- The uuid fragments and the clock are parameters. `datetime.now()` becomes an hour and a minute.
- Gradio is not modelled: all UI construction in `ui_tabs.py` and `app.py`, and `gr.Info`/`gr.Warning`/`gr.Error`, which do not change what is returned. `print` logging is not modelled either.
- Not modelled (filesystem and network plumbing):
  - Hugging Face listing and download internals, beyond the oracle;
  - `setup_batch_file` and `download_ffmpeg`;
  - `config.clean_folder_before_start`;
  - the `VOICE_LIST` scan at import time, which `UiTabs` takes as an argument.
- SHA-256 is an opaque function.
- `os.makedirs` is not modelled. Folders exist implicitly in the path map.
- `generate_custom_audio` is not modelled. It chains the empty-formula check, the model switch, `get_new_voice_path` and `text_to_speech`, each of which is modelled.
- TtsLogic.Runtime.PodcastMaker: `podcast` itself (multi-voice synthesis) is not modelled; the method states the model switch and the arguments `podcast` receives.
- UiTabs.GetVoiceNamesJson: returns the three lists; the `json.dumps(..., indent=4)` text (indentation, `ensure_ascii` escapes) is not built.
- Case mapping outside ASCII is not modelled: `capitalize` and `lower` act on ASCII letters only.
- VoiceMixer.MixIsWeightedMean: states the mean as mix · total = sum and gives no bound between the smallest and largest voice, because the source promises none.
  - `float()` accepts negative weights, so `af*2 + am*-1` has total 1 and mixes to 2·af − am, outside that range. The bound would hold only for non-negative weights.
- `srt_to_dub` has no per-entry error handling: a failing synthesis ends the dub, reporting that entry's index.
  - In that case the scratch folder is not removed, and `SrtToDub` returns the files it holds.
- VoiceMixer.GetVoices: `torch.load` failing on a listed file is not modelled: the loader is total. (`DownloadModel.MixOne` does model it, as a missing store entry.)
- DownloadModel.DownloadOne: the `except` of download_model.py:58-59 also catches a failing hash read or copy. The model treats both as total and reports `Error` only for a failed fetch.
- DownloadModel.MixAll: two pairs can share a mix name, e.g. ("af", "mix_bella") and ("af_mix", "bella") (`MixNamesCollide`). The later save then overwrites the earlier mix, so fewer than n(n−1)/2 files can remain. `MixFilesDistinct` shows this cannot happen when no voice name contains "_mix".
