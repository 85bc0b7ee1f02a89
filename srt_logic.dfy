/** The subtitle dubbing pipeline of `srt_logic.py`.

    - Entry builder: parsed subtitle cues become entries with start and end in
      milliseconds, the pause before the cue and the entry's scratch file names.
    - Timing reconciler: one cue's text is synthesised, measured against the cue's
      window and then kept, tempo-stretched or padded with silence.
    - Dub assembler: per entry a pause file and a speech file are written into a
      scratch folder; the files that exist and are not empty are concatenated in
      order, and the scratch folder is removed.

    The synthesiser, the two tempo-stretch tools and the ffmpeg probe are oracles.
    The filesystem is a map from path to the clip stored there. */
module SrtLogic {
  import opened Wrappers
  import opened Text
  import opened Paths
  import TtsLogic

  // ---------------------------------------------------------------------------
  // Subtitle entries (`SRTDubbing.read_srt_file`)
  // ---------------------------------------------------------------------------

  /** A cue timestamp as the subtitle parser gives it. */
  datatype SubTime = SubTime(hours: int, minutes: int, seconds: int, milliseconds: int)

  /** A parsed cue: its two timestamps and its text with formatting tags removed. */
  datatype Cue = Cue(start: SubTime, end: SubTime, textWithoutTags: string)

  /** One entry of the list `read_srt_file` returns. */
  datatype Entry = Entry(
    entryNumber: nat,
    startMs: int,
    endMs: int,
    text: string,
    pauseMs: int,
    audioName: string,
    pauseName: string)

  const MsPerSecond: int := 1000
  const MsPerMinute: int := 60000
  const MsPerHour: int := 3600000

  /** A timestamp in milliseconds. */
  function ToMs(t: SubTime): int
  {
    t.hours * 3600000 + t.minutes * 60000 + t.seconds * 1000 + t.milliseconds
  }

  /** A timestamp whose fields are in their usual ranges. */
  predicate Canonical(t: SubTime)
  {
    0 <= t.hours && 0 <= t.minutes < 60 && 0 <= t.seconds < 60 && 0 <= t.milliseconds < 1000
  }

  /** The canonical timestamp of a number of milliseconds. */
  function FromMs(ms: nat): (t: SubTime)
    ensures Canonical(t)
  {
    SubTime(ms / MsPerHour, ms % MsPerHour / MsPerMinute, ms % MsPerMinute / MsPerSecond, ms % MsPerSecond)
  }

  /** The millisecond conversion loses nothing: a canonical timestamp is recovered
      from its millisecond value. */
  lemma TimeRoundTrip(t: SubTime)
    requires Canonical(t)
    ensures ToMs(t) >= 0 && FromMs(ToMs(t)) == t
  {
    var below := t.minutes * MsPerMinute + t.seconds * MsPerSecond + t.milliseconds;
    assert 0 <= below < MsPerHour;
    var ms := t.hours * MsPerHour + below;
    assert ms / MsPerHour == t.hours && ms % MsPerHour == below by {
      DivModUnique(ms, MsPerHour, t.hours, below);
    }
    var below2 := t.seconds * MsPerSecond + t.milliseconds;
    assert below / MsPerMinute == t.minutes && below % MsPerMinute == below2 by {
      DivModUnique(below, MsPerMinute, t.minutes, below2);
    }
    assert ms % MsPerMinute == below2 by {
      DivModUnique(ms, MsPerMinute, t.hours * 60 + t.minutes, below2);
    }
    assert below2 / MsPerSecond == t.seconds && below2 % MsPerSecond == t.milliseconds by {
      DivModUnique(below2, MsPerSecond, t.seconds, t.milliseconds);
    }
    assert ms % MsPerSecond == t.milliseconds by {
      DivModUnique(ms, MsPerSecond, t.hours * 3600 + t.minutes * 60 + t.seconds, t.milliseconds);
    }
  }

  lemma DivModUnique(n: int, d: int, q: int, r: int)
    requires d > 0 && 0 <= r < d && n == q * d + r
    ensures n / d == q && n % d == r
  {
    var q', r' := n / d, n % d;
    assert q' * d + r' == n;
    assert (q - q') * d == r' - r by {
      assert (q - q') * d == q * d - q' * d;
    }
    if q > q' {
      MulAtLeast(q - q', d);
    } else if q < q' {
      MulAtLeast(q' - q, d);
    }
  }

  lemma MulAtLeast(a: int, d: int)
    requires a >= 1 && d > 0
    ensures a * d >= d
  {
    assert a * d == (a - 1) * d + d;
    assert (a - 1) * d >= 0;
  }

  /** The entry text: every newline becomes a space, then surrounding whitespace is stripped. */
  function CleanText(s: string): string
  {
    Strip(Replace(s, "\n", " "))
  }

  /** A cleaned text has no newline and no whitespace at either end, and cleaning
      it again changes nothing. */
  lemma CleanTextSpec(s: string)
    ensures '\n' !in CleanText(s)
    ensures CleanText(s) != [] ==> !IsSpace(CleanText(s)[0]) && !IsSpace(CleanText(s)[|CleanText(s)| - 1])
    ensures CleanText(CleanText(s)) == CleanText(s)
  {
    var r := Replace(s, "\n", " ");
    NewlinesReplaced(s);
    NewlineStaysAbsent(r);
    StripSpec(r);
    NewlineFreeUnchanged(Strip(r));
    StripIdempotent(r);
  }

  lemma NewlinesReplaced(s: string)
    ensures '\n' !in Replace(s, "\n", " ")
  {
    ReplaceCharRemoves(s, '\n', " ");
  }

  lemma NewlineStaysAbsent(r: string)
    requires '\n' !in r
    ensures '\n' !in Strip(r)
  {
    StripSubset(r);
  }

  lemma NewlineFreeUnchanged(c: string)
    requires '\n' !in c
    ensures Replace(c, "\n", " ") == c
  {
    ReplaceCharAbsent(c, '\n', " ");
  }

  /** Scratch name of an entry's speech file. */
  function AudioName(n: nat): string
  {
    NatToString(n) + ".wav"
  }

  /** Scratch name of the silence written before an entry. */
  function PauseName(n: nat): string
  {
    NatToString(n) + "_before_pause.wav"
  }

  /** The end of the entry before entry `i`; 0 before the first. */
  function PreviousEndMs(entries: seq<Entry>, i: nat): int
    requires i <= |entries|
  {
    if i == 0 then 0 else entries[i - 1].endMs
  }

  /** Every entry's pause is the gap from the previous entry's end to its own start. */
  predicate Chained(entries: seq<Entry>)
  {
    forall i :: 0 <= i < |entries| ==> entries[i].pauseMs == entries[i].startMs - PreviousEndMs(entries, i)
  }

  /** Entry `n` (counting from 1) as it is built from cue `cue`, apart from its pause. */
  predicate EntryFor(cue: Cue, n: nat, e: Entry)
  {
    && e.entryNumber == n
    && e.startMs == ToMs(cue.start)
    && e.endMs == ToMs(cue.end)
    && e.text == CleanText(cue.textWithoutTags)
    && e.audioName == AudioName(n)
    && e.pauseName == PauseName(n)
  }

  /** What `read_srt_file` promises about its result, cue by cue. */
  predicate IsEntryList(cues: seq<Cue>, entries: seq<Entry>)
  {
    && |entries| == |cues|
    && (forall i :: 0 <= i < |cues| ==> EntryFor(cues[i], i + 1, entries[i]))
    && Chained(entries)
  }

  /** One more entry, built from the next cue and chained to the last end, keeps the
      list an entry list of the cues so far. */
  lemma EntryListGrows(cues: seq<Cue>, entries: seq<Entry>, entry: Entry)
    requires |entries| < |cues|
    requires forall k :: 0 <= k < |entries| ==> EntryFor(cues[k], k + 1, entries[k])
    requires Chained(entries)
    requires EntryFor(cues[|entries|], |entries| + 1, entry)
    requires entry.pauseMs == entry.startMs - PreviousEndMs(entries, |entries|)
    ensures var e := entries + [entry];
      && (forall k :: 0 <= k < |e| ==> EntryFor(cues[k], k + 1, e[k]))
      && Chained(e)
  {
    EntriesGrow(cues, entries, entry);
    ChainGrows(entries, entry);
  }

  lemma EntriesGrow(cues: seq<Cue>, entries: seq<Entry>, entry: Entry)
    requires |entries| < |cues|
    requires forall k :: 0 <= k < |entries| ==> EntryFor(cues[k], k + 1, entries[k])
    requires EntryFor(cues[|entries|], |entries| + 1, entry)
    ensures var e := entries + [entry];
      forall k :: 0 <= k < |e| ==> EntryFor(cues[k], k + 1, e[k])
  {
    var e := entries + [entry];
    forall k | 0 <= k < |e| ensures EntryFor(cues[k], k + 1, e[k]) {
      if k < |entries| {
        assert e[k] == entries[k];
      } else {
        assert e[k] == entry;
      }
    }
  }

  lemma ChainGrows(entries: seq<Entry>, entry: Entry)
    requires Chained(entries)
    requires entry.pauseMs == entry.startMs - PreviousEndMs(entries, |entries|)
    ensures Chained(entries + [entry])
  {
    var e := entries + [entry];
    forall k | 0 <= k < |e| ensures e[k].pauseMs == e[k].startMs - PreviousEndMs(e, k) {
      if k < |entries| {
        assert e[k] == entries[k];
        assert PreviousEndMs(e, k) == PreviousEndMs(entries, k);
      } else {
        assert e[k] == entry;
        assert PreviousEndMs(e, k) == PreviousEndMs(entries, k);
      }
    }
  }

  /** `SRTDubbing.read_srt_file`, from the cues the subtitle parser returns. */
  method ReadSrtFile(cues: seq<Cue>) returns (entries: seq<Entry>)
    ensures IsEntryList(cues, entries)
  {
    entries := [];
    var previousEndMs := 0;
    var i := 0;
    while i < |cues|
      invariant 0 <= i <= |cues| && |entries| == i
      invariant forall k :: 0 <= k < i ==> EntryFor(cues[k], k + 1, entries[k])
      invariant Chained(entries)
      invariant previousEndMs == PreviousEndMs(entries, i)
    {
      var cue := cues[i];
      var startMs := ToMs(cue.start);
      var endMs := ToMs(cue.end);
      var entry := Entry(
        i + 1, startMs, endMs, CleanText(cue.textWithoutTags), startMs - previousEndMs,
        AudioName(i + 1), PauseName(i + 1));
      assert EntryFor(cues[i], i + 1, entry);
      EntryListGrows(cues, entries, entry);
      entries := entries + [entry];
      previousEndMs := endMs;
      i := i + 1;
    }
  }

  /** The sum, over entries, of the pause before each and its own window. */
  function TimelineMs(entries: seq<Entry>): int
  {
    if entries == [] then 0
    else
      var last := entries[|entries| - 1];
      TimelineMs(entries[..|entries| - 1]) + last.pauseMs + (last.endMs - last.startMs)
  }

  /** Pauses and windows tile the time line: together they reach the last cue's end. */
  lemma {:induction false} TimelineReachesLastEnd(entries: seq<Entry>)
    requires Chained(entries) && entries != []
    ensures TimelineMs(entries) == entries[|entries| - 1].endMs
    decreases |entries|
  {
    var n := |entries|;
    if n > 1 {
      var shorter := entries[..n - 1];
      assert forall i :: 0 <= i < n - 1 ==> shorter[i] == entries[i];
      assert Chained(shorter) by {
        forall i | 0 <= i < n - 1
          ensures shorter[i].pauseMs == shorter[i].startMs - PreviousEndMs(shorter, i)
        {
          assert entries[i].pauseMs == entries[i].startMs - PreviousEndMs(entries, i);
        }
      }
      TimelineReachesLastEnd(shorter);
      assert entries[n - 1].pauseMs == entries[n - 1].startMs - PreviousEndMs(entries, n - 1);
    }
  }

  /** Every entry's file names are distinct from every other name in the list. */
  predicate NamesDistinct(entries: seq<Entry>)
  {
    && (forall i, j :: 0 <= i < |entries| && 0 <= j < |entries| ==>
          entries[i].pauseName != entries[j].audioName)
    && (forall i, j :: 0 <= i < j < |entries| ==>
          entries[i].pauseName != entries[j].pauseName && entries[i].audioName != entries[j].audioName)
  }

  /** Every file name is a plain relative name, without any '/'. */
  predicate NamesPlain(entries: seq<Entry>)
  {
    forall i :: 0 <= i < |entries| ==>
      '/' !in entries[i].pauseName && '/' !in entries[i].audioName
      && entries[i].pauseName != "" && entries[i].audioName != ""
  }

  lemma AudioNameNotPauseName(a: nat, b: nat)
    ensures AudioName(a) != PauseName(b)
  {
    var x, y := AudioName(a), PauseName(b);
    var d := NatToString(a);
    if |x| == |y| {
      assert x[|x| - 5] == d[|d| - 1];
      assert IsDigit(d[|d| - 1]);
      assert y[|y| - 5] == 'e';
    }
  }

  /** The entry number can be read back from either scratch name. */
  lemma NamesEncodeNumber(n: nat)
    ensures DigitsValue(AudioName(n)[..|AudioName(n)| - 4]) == n
    ensures DigitsValue(PauseName(n)[..|PauseName(n)| - 17]) == n
  {
    var d := NatToString(n);
    assert AudioName(n)[..|AudioName(n)| - 4] == d;
    assert PauseName(n)[..|PauseName(n)| - 17] == d;
    NatToStringValue(n);
  }

  lemma NamesDiffer(a: nat, b: nat)
    requires a != b
    ensures AudioName(a) != AudioName(b) && PauseName(a) != PauseName(b)
  {
    NamesEncodeNumber(a);
    NamesEncodeNumber(b);
  }

  lemma NamesHaveNoSlash(n: nat)
    ensures '/' !in AudioName(n) && '/' !in PauseName(n)
    ensures AudioName(n) != "" && PauseName(n) != ""
  {
    var d := NatToString(n);
    assert forall k :: 0 <= k < |d| ==> d[k] != '/';
    assert AudioName(n) == d + ".wav";
    assert PauseName(n) == d + "_before_pause.wav";
  }

  /** Entries named after their positions, as `read_srt_file` names them. */
  predicate NamedByPosition(entries: seq<Entry>)
  {
    forall i :: 0 <= i < |entries| ==>
      entries[i].audioName == AudioName(i + 1) && entries[i].pauseName == PauseName(i + 1)
  }

  /** The scratch names of a list built by `read_srt_file` never collide, and none
      contains a '/'. */
  lemma EntryNamesDistinct(entries: seq<Entry>)
    requires NamedByPosition(entries)
    ensures NamesDistinct(entries) && NamesPlain(entries)
  {
    forall i, j | 0 <= i < |entries| && 0 <= j < |entries|
      ensures entries[i].pauseName != entries[j].audioName
    {
      AudioNameNotPauseName(j + 1, i + 1);
    }
    forall i, j | 0 <= i < j < |entries|
      ensures entries[i].pauseName != entries[j].pauseName && entries[i].audioName != entries[j].audioName
    {
      NamesDiffer(i + 1, j + 1);
    }
    forall i | 0 <= i < |entries|
      ensures '/' !in entries[i].pauseName && '/' !in entries[i].audioName
      ensures entries[i].pauseName != "" && entries[i].audioName != ""
    {
      NamesHaveNoSlash(i + 1);
    }
  }

  /** A list built by `read_srt_file` is named by position. */
  lemma EntryListNamedByPosition(cues: seq<Cue>, entries: seq<Entry>)
    requires IsEntryList(cues, entries)
    ensures NamedByPosition(entries)
  {
    forall i | 0 <= i < |entries|
      ensures entries[i].audioName == AudioName(i + 1) && entries[i].pauseName == PauseName(i + 1)
    {
      assert EntryFor(cues[i], i + 1, entries[i]);
    }
  }

  // ---------------------------------------------------------------------------
  // Timing reconciler (`your_tts_for_srt`, `text_to_speech_srt`, `change_speed`)
  // ---------------------------------------------------------------------------

  /** An audio file: its length in milliseconds as pydub measures it, and its size. */
  datatype Clip = Clip(durationMs: nat, sizeBytes: nat)

  /** The synthesiser reached through `text_to_speech`: text, voice and speed give the
      rendered clip, or `None` when it raises. */
  type Synthesizer = (string, string, real) -> Option<Clip>

  /** A tempo-stretch tool (ffmpeg `atempo`, or librosa `time_stretch`): the input clip
      and the speed factor give the output clip, or `None` when the tool fails. */
  type StretchTool = (Clip, real) -> Option<Clip>

  /** The external collaborators of the dubbing pipeline. `useFfmpeg` is the module
      flag `USE_FFMPEG` at the time of the call. */
  datatype Tools = Tools(synth: Synthesizer, ffmpeg: StretchTool, librosa: StretchTool, useFfmpeg: bool)

  /** Bytes of a canonical WAV header as pydub writes it. */
  const WavHeaderBytes := 44
  /** `AudioSegment.silent` renders 16-bit mono at 11025 frames per second. */
  const SilenceFrameRate := 11025
  /** The synthesiser renders 16-bit mono at 24000 frames per second. */
  const SpeechFrameRate := 24000

  /** A 16-bit mono WAV file written by pydub's `export`. */
  function WavExport(durationMs: nat, frameRate: nat): (c: Clip)
    ensures c.durationMs == durationMs && c.sizeBytes > 0
  {
    Clip(durationMs, WavHeaderBytes + 2 * (frameRate * durationMs / 1000))
  }

  /** The clip is too long for a positive window. */
  predicate Overruns(measuredMs: int, targetMs: int)
  {
    targetMs > 0 && measuredMs > targetMs
  }

  /** Python's true division `measured / target`. */
  function SpeedFactor(measuredMs: int, targetMs: int): real
    requires targetMs > 0
  {
    measuredMs as real / targetMs as real
  }

  lemma SpeedFactorAboveOne(measuredMs: int, targetMs: int)
    requires Overruns(measuredMs, targetMs)
    ensures SpeedFactor(measuredMs, targetMs) > 1.0
  {
    var q := SpeedFactor(measuredMs, targetMs);
    assert q * targetMs as real == measuredMs as real;
  }

  /** The speeds the synthesiser was asked for, in order, and the clip finally kept. */
  datatype Synthesis = Synthesis(speeds: seq<real>, clip: Clip)

  /** The model `your_tts_for_srt` asks `text_to_speech` for on every synthesis. */
  const SrtModel := "kokoro-v0_19.pth"

  /** `your_tts_for_srt`: synthesise at speed 1.0; if the clip overruns a positive
      window, synthesise once more at speed measured/target and keep that clip. */
  function YourTtsForSrt(synth: Synthesizer, text: string, voice: string, targetMs: int): (r: Option<Synthesis>)
    ensures r.Some? ==> 1 <= |r.value.speeds| <= 2 && r.value.speeds[0] == 1.0
    ensures r.Some? ==> synth(text, voice, r.value.speeds[|r.value.speeds| - 1]) == Some(r.value.clip)
    ensures r.Some? ==>
              synth(text, voice, 1.0).Some?
              && (|r.value.speeds| == 2 <==> Overruns(synth(text, voice, 1.0).value.durationMs, targetMs))
    ensures r.Some? && |r.value.speeds| == 2 ==>
              synth(text, voice, 1.0).Some?
              && r.value.speeds[1] == SpeedFactor(synth(text, voice, 1.0).value.durationMs, targetMs)
              && r.value.speeds[1] > 1.0
    ensures r.None? <==>
      synth(text, voice, 1.0).None?
      || (Overruns(synth(text, voice, 1.0).value.durationMs, targetMs)
          && synth(text, voice, SpeedFactor(synth(text, voice, 1.0).value.durationMs, targetMs)).None?)
  {
    match synth(text, voice, 1.0)
    case None => None
    case Some(first) =>
      if Overruns(first.durationMs, targetMs) then
        var factor := SpeedFactor(first.durationMs, targetMs);
        SpeedFactorAboveOne(first.durationMs, targetMs);
        match synth(text, voice, factor)
        case None => None
        case Some(second) => Some(Synthesis([1.0, factor], second))
      else
        Some(Synthesis([1.0], first))
  }

  /** Which step of the speed-change fallback chain produced the output. */
  datatype Tool = Ffmpeg | Librosa | CopyThrough

  datatype Stretched = Stretched(tool: Tool, clip: Clip)

  /** `change_speed` with `speedup_audio_librosa`: ffmpeg when the flag says it is
      installed; librosa when ffmpeg is absent or fails; a verbatim copy when librosa
      fails. The chain always yields a clip. */
  function ChangeSpeed(tools: Tools, input: Clip, factor: real): (r: Stretched)
    ensures r.tool == Ffmpeg <==> tools.useFfmpeg && tools.ffmpeg(input, factor).Some?
    ensures r.tool == Librosa <==>
      (!tools.useFfmpeg || tools.ffmpeg(input, factor).None?) && tools.librosa(input, factor).Some?
    ensures r.tool == Ffmpeg ==> tools.ffmpeg(input, factor) == Some(r.clip)
    ensures r.tool == Librosa ==> tools.librosa(input, factor) == Some(r.clip)
    ensures r.tool == CopyThrough ==> r.clip == input
  {
    if tools.useFfmpeg && tools.ffmpeg(input, factor).Some? then
      Stretched(Ffmpeg, tools.ffmpeg(input, factor).value)
    else
      SpeedupLibrosa(tools, input, factor)
  }

  /** `speedup_audio_librosa`: librosa, or a verbatim copy when it fails. */
  function SpeedupLibrosa(tools: Tools, input: Clip, factor: real): (r: Stretched)
    ensures r.tool != Ffmpeg
    ensures r.tool == Librosa <==> tools.librosa(input, factor).Some?
    ensures r.tool == Librosa ==> tools.librosa(input, factor) == Some(r.clip)
    ensures r.tool == CopyThrough ==> r.clip == input
  {
    match tools.librosa(input, factor)
    case Some(out) => Stretched(Librosa, out)
    case None => Stretched(CopyThrough, input)
  }

  /** What `text_to_speech_srt` did with the re-measured clip. */
  datatype Action = UseAsIs | SpeedUp(factor: real, tool: Tool) | PadWithSilence(gapMs: nat)

  datatype Fit = Fit(synthesis: Synthesis, action: Action, output: Clip)

  /** `SRTDubbing.text_to_speech_srt`: re-measure the synthesised clip and then keep it
      (window not positive, or exact match), tempo-stretch it (overrun), or append
      silence up to the window (underrun). `None` when the synthesiser raises. */
  function TextToSpeechSrt(tools: Tools, voice: string, text: string, targetMs: int): (r: Option<Fit>)
    ensures r.None? <==> YourTtsForSrt(tools.synth, text, voice, targetMs).None?
    ensures r.Some? ==> r.value.synthesis == YourTtsForSrt(tools.synth, text, voice, targetMs).value
    ensures r.Some? && (targetMs <= 0 || r.value.synthesis.clip.durationMs == targetMs) ==>
      r.value.action == UseAsIs && r.value.output == r.value.synthesis.clip
    ensures r.Some? && Overruns(r.value.synthesis.clip.durationMs, targetMs) ==>
      var factor := SpeedFactor(r.value.synthesis.clip.durationMs, targetMs);
      && factor > 1.0
      && r.value.action == SpeedUp(factor, ChangeSpeed(tools, r.value.synthesis.clip, factor).tool)
      && r.value.output == ChangeSpeed(tools, r.value.synthesis.clip, factor).clip
    ensures r.Some? && 0 < targetMs && r.value.synthesis.clip.durationMs < targetMs ==>
      && r.value.action == PadWithSilence(targetMs - r.value.synthesis.clip.durationMs)
      && r.value.output.durationMs == targetMs && r.value.output.sizeBytes > 0
  {
    match YourTtsForSrt(tools.synth, text, voice, targetMs)
    case None => None
    case Some(syn) =>
      var measured := syn.clip.durationMs;
      if targetMs <= 0 then Some(Fit(syn, UseAsIs, syn.clip))
      else if measured > targetMs then
        var factor := SpeedFactor(measured, targetMs);
        SpeedFactorAboveOne(measured, targetMs);
        var out := ChangeSpeed(tools, syn.clip, factor);
        Some(Fit(syn, SpeedUp(factor, out.tool), out.clip))
      else if measured < targetMs then
        Some(Fit(syn, PadWithSilence(targetMs - measured), WavExport(targetMs, SpeechFrameRate)))
      else Some(Fit(syn, UseAsIs, syn.clip))
  }

  /** Only a clip that still overruns after the speed-corrected re-synthesis is
      tempo-stretched: a first synthesis that fits is never stretched. */
  lemma StretchOnlyAfterResynthesis(tools: Tools, voice: string, text: string, targetMs: int)
    requires TextToSpeechSrt(tools, voice, text, targetMs).Some?
    requires TextToSpeechSrt(tools, voice, text, targetMs).value.action.SpeedUp?
    ensures |TextToSpeechSrt(tools, voice, text, targetMs).value.synthesis.speeds| == 2
    ensures Overruns(tools.synth(text, voice, 1.0).value.durationMs, targetMs)
  {
  }

  /** Whenever the kept clip does not overrun a positive window, the speech file
      fills the window exactly. */
  lemma FitsWindowUnlessOverrun(tools: Tools, voice: string, text: string, targetMs: int)
    requires targetMs > 0
    requires TextToSpeechSrt(tools, voice, text, targetMs).Some?
    requires !Overruns(TextToSpeechSrt(tools, voice, text, targetMs).value.synthesis.clip.durationMs, targetMs)
    ensures TextToSpeechSrt(tools, voice, text, targetMs).value.output.durationMs == targetMs
  {
  }

  // ---------------------------------------------------------------------------
  // Dub assembler (`make_silence`, `concatenate_audio_files`, `srt_to_dub`)
  // ---------------------------------------------------------------------------

  type FileSystem = map<string, Clip>

  /** `make_silence`: a positive pause writes a silent clip of that length;
      any other pause writes nothing. */
  function MakeSilence(fs: FileSystem, pauseMs: int, path: string): (r: FileSystem)
    ensures pauseMs > 0 ==> path in r && r[path].durationMs == pauseMs && r[path].sizeBytes > 0
    ensures forall p :: p != path ==> (p in r <==> p in fs) && (p in fs ==> r[p] == fs[p])
    ensures pauseMs <= 0 ==> r == fs
  {
    if pauseMs > 0 then fs[path := WavExport(pauseMs, SilenceFrameRate)] else fs
  }

  /** A file `concatenate_audio_files` takes: it exists and is not empty. */
  predicate Joinable(fs: FileSystem, p: string)
  {
    p in fs && fs[p].sizeBytes > 0
  }

  /** The paths concatenation uses, in their order. */
  function Kept(paths: seq<string>, fs: FileSystem): seq<string>
  {
    if paths == [] then []
    else
      var last := paths[|paths| - 1];
      Kept(paths[..|paths| - 1], fs) + (if Joinable(fs, last) then [last] else [])
  }

  /** Total length of the clips at the given paths, counting only joinable ones. */
  function JoinedMs(paths: seq<string>, fs: FileSystem): nat
  {
    if paths == [] then 0
    else
      var last := paths[|paths| - 1];
      JoinedMs(paths[..|paths| - 1], fs) + (if Joinable(fs, last) then fs[last].durationMs else 0)
  }

  /** Sum of the lengths of the clips at the given paths. */
  function SumMs(paths: seq<string>, fs: FileSystem): nat
    requires forall k :: 0 <= k < |paths| ==> paths[k] in fs
  {
    if paths == [] then 0 else SumMs(paths[..|paths| - 1], fs) + fs[paths[|paths| - 1]].durationMs
  }

  /** Concatenation keeps exactly the joinable paths and preserves their order: it
      distributes over `+`, and a path is kept iff it occurs and is joinable. */
  lemma {:induction false} KeptSpec(a: seq<string>, b: seq<string>, fs: FileSystem)
    ensures Kept(a + b, fs) == Kept(a, fs) + Kept(b, fs)
    ensures JoinedMs(a + b, fs) == JoinedMs(a, fs) + JoinedMs(b, fs)
    ensures forall p :: p in Kept(a, fs) <==> p in a && Joinable(fs, p)
    decreases |b|
  {
    if b == [] {
      assert a + b == a;
      KeptMembers(a, fs);
    } else {
      var b' := b[..|b| - 1];
      assert (a + b)[..|a + b| - 1] == a + b';
      KeptSpec(a, b', fs);
    }
  }

  lemma {:induction false} KeptMembers(a: seq<string>, fs: FileSystem)
    ensures forall p :: p in Kept(a, fs) <==> p in a && Joinable(fs, p)
    decreases |a|
  {
    if a != [] {
      var a' := a[..|a| - 1];
      KeptMembers(a', fs);
      assert a == a' + [a[|a| - 1]];
      assert forall p :: p in a <==> p in a' || p == a[|a| - 1];
    }
  }

  /** The joined length is the sum of the lengths of the kept clips. */
  lemma {:induction false} JoinedIsSumOfKept(paths: seq<string>, fs: FileSystem)
    ensures forall k :: 0 <= k < |Kept(paths, fs)| ==> Kept(paths, fs)[k] in fs
    ensures JoinedMs(paths, fs) == SumMs(Kept(paths, fs), fs)
    decreases |paths|
  {
    KeptMembers(paths, fs);
    assert forall k :: 0 <= k < |Kept(paths, fs)| ==> Kept(paths, fs)[k] in Kept(paths, fs);
    if paths != [] {
      var a' := paths[..|paths| - 1];
      var last := paths[|paths| - 1];
      JoinedIsSumOfKept(a', fs);
      var k := Kept(paths, fs);
      if Joinable(fs, last) {
        assert k == Kept(a', fs) + [last];
        assert k[..|k| - 1] == Kept(a', fs);
        assert SumMs(k, fs) == SumMs(Kept(a', fs), fs) + fs[last].durationMs;
      } else {
        assert k == Kept(a', fs);
      }
    }
  }

  /** `concatenate_audio_files`: walk the paths in order, append every clip that
      exists and is not empty, and export the result to `outputPath`. */
  method ConcatenateAudioFiles(paths: seq<string>, outputPath: string, fs: FileSystem)
    returns (kept: seq<string>, joined: Clip, fs': FileSystem)
    ensures kept == Kept(paths, fs)
    ensures joined.durationMs == JoinedMs(paths, fs)
    ensures fs' == fs[outputPath := joined]
  {
    kept := [];
    var totalMs := 0;
    var i := 0;
    while i < |paths|
      invariant 0 <= i <= |paths|
      invariant kept == Kept(paths[..i], fs)
      invariant totalMs == JoinedMs(paths[..i], fs)
    {
      var path := paths[i];
      if path in fs && fs[path].sizeBytes > 0 {
        kept := kept + [path];
        totalMs := totalMs + fs[path].durationMs;
      }
      assert paths[..i + 1][..i] == paths[..i];
      i := i + 1;
    }
    assert paths[..i] == paths;
    joined := WavExport(totalMs, SpeechFrameRate);
    fs' := fs[outputPath := joined];
  }

  /** The pause path and the speech path of one entry in the scratch folder. */
  function PausePath(folder: string, e: Entry): string
  {
    Join(folder, e.pauseName)
  }

  function SpeechPath(folder: string, e: Entry): string
  {
    Join(folder, e.audioName)
  }

  /** The paths `srt_to_dub` records: pause then speech, entry by entry. */
  function SegmentPaths(folder: string, entries: seq<Entry>): seq<string>
  {
    if entries == [] then []
    else
      var last := entries[|entries| - 1];
      SegmentPaths(folder, entries[..|entries| - 1]) + [PausePath(folder, last), SpeechPath(folder, last)]
  }

  /** There are exactly two recorded paths per entry: the pause at an even position,
      the speech right after it, in entry order. */
  lemma {:induction false} SegmentPathsShape(folder: string, entries: seq<Entry>)
    ensures |SegmentPaths(folder, entries)| == 2 * |entries|
    ensures forall k :: 0 <= k < |entries| ==>
      SegmentPaths(folder, entries)[2 * k] == PausePath(folder, entries[k])
      && SegmentPaths(folder, entries)[2 * k + 1] == SpeechPath(folder, entries[k])
    decreases |entries|
  {
    if entries != [] {
      SegmentPathsShape(folder, entries[..|entries| - 1]);
    }
  }

  /** One iteration of the `srt_to_dub` loop on the filesystem: write the pause, then
      the reconciled speech. `None` when the synthesiser raises, which ends the dub. */
  function WriteEntry(tools: Tools, voice: string, folder: string, e: Entry, fs: FileSystem): Option<FileSystem>
  {
    var withPause := MakeSilence(fs, e.pauseMs, PausePath(folder, e));
    match EntryFit(tools, voice, e)
    case None => None
    case Some(fit) => Some(withPause[SpeechPath(folder, e) := fit.output])
  }

  /** The scratch filesystem after the loop over `entries`, or the index of the entry
      whose synthesis raised. */
  function Scratch(tools: Tools, voice: string, folder: string, entries: seq<Entry>, fs: FileSystem): (r: Result<FileSystem, nat>)
    ensures r.Failure? ==> r.error < |entries|
  {
    if entries == [] then Success(fs)
    else
      match Scratch(tools, voice, folder, entries[..|entries| - 1], fs)
      case Failure(k) => Failure(k)
      case Success(before) =>
        match WriteEntry(tools, voice, folder, entries[|entries| - 1], before)
        case None => Failure(|entries| - 1)
        case Some(after) => Success(after)
  }

  /** `shutil.rmtree(folder)` on the filesystem. */
  function RemoveTree(fs: FileSystem, folder: string): (r: FileSystem)
    ensures forall p :: p in r <==> p in fs && !IsUnder(p, folder)
    ensures forall p :: p in r ==> r[p] == fs[p]
  {
    map p | p in fs && !IsUnder(p, folder) :: fs[p]
  }

  /** The outcome of a dub: the recorded paths, the scratch filesystem they were
      concatenated from, the paths used, the exported track, and the final filesystem. */
  datatype DubRun = DubRun(
    segments: seq<string>,
    scratch: FileSystem,
    kept: seq<string>,
    track: Clip,
    fs: FileSystem)

  /** A dub that a raising synthesis ended: the index of that entry, and the files
      left behind (the scratch folder is not removed). */
  datatype DubAbort = DubAbort(entry: nat, left: FileSystem)

  /** `SRTDubbing.srt_to_dub` after `read_srt_file` and `create_folder_for_srt`:
      per entry, write the pause file and the speech file and record both paths;
      then concatenate and remove the scratch folder. A synthesis that raises aborts
      the dub with the index of its entry; the scratch folder is then left behind,
      holding the files of the entries before it and that entry's pause. */
  method SrtToDub(tools: Tools, voice: string, entries: seq<Entry>, folder: string,
                  dubSavePath: string, fs: FileSystem)
    returns (r: Result<DubRun, DubAbort>)
    ensures r.Failure? <==> Scratch(tools, voice, folder, entries, fs).Failure?
    ensures r.Failure? ==> r.error.entry == Scratch(tools, voice, folder, entries, fs).error
    ensures r.Failure? ==>
      var i := r.error.entry;
      && i < |entries|
      && Scratch(tools, voice, folder, entries[..i], fs).Success?
      && r.error.left == MakeSilence(Scratch(tools, voice, folder, entries[..i], fs).value,
                                     entries[i].pauseMs, PausePath(folder, entries[i]))
    ensures r.Success? ==>
      && r.value.segments == SegmentPaths(folder, entries)
      && r.value.scratch == Scratch(tools, voice, folder, entries, fs).value
      && r.value.kept == Kept(r.value.segments, r.value.scratch)
      && r.value.track.durationMs == JoinedMs(r.value.segments, r.value.scratch)
      && r.value.fs == RemoveTree(r.value.scratch[dubSavePath := r.value.track], folder)
  {
    var segments := [];
    var current := fs;
    var i := 0;
    while i < |entries|
      invariant 0 <= i <= |entries|
      invariant Scratch(tools, voice, folder, entries[..i], fs) == Success(current)
      invariant segments == SegmentPaths(folder, entries[..i])
    {
      var e := entries[i];
      ghost var recorded := segments;
      ghost var before := current;
      var pausePath := Join(folder, e.pauseName);
      current := MakeSilence(current, e.pauseMs, pausePath);
      segments := segments + [pausePath];
      var ttsPath := Join(folder, e.audioName);
      var fit := TextToSpeechSrt(tools, voice, e.text, e.endMs - e.startMs);
      if fit.None? {
        ScratchFailsFrom(tools, voice, folder, entries, fs, i);
        return Failure(DubAbort(i, current));
      }
      current := current[ttsPath := fit.value.output];
      segments := segments + [ttsPath];
      ScratchGrows(tools, voice, folder, entries, fs, i, before);
      SegmentsGrow(folder, entries, i);
      AppendTwo(recorded, pausePath, ttsPath);
      i := i + 1;
    }
    assert entries[..i] == entries;
    var kept, track, joinedFs := ConcatenateAudioFiles(segments, dubSavePath, current);
    r := Success(DubRun(segments, current, kept, track, RemoveTree(joinedFs, folder)));
  }

  /** A failure at entry `i` after a successful prefix is the failure of the whole loop. */
  lemma ScratchFailsFrom(tools: Tools, voice: string, folder: string,
                         entries: seq<Entry>, fs: FileSystem, i: nat)
    requires i < |entries|
    requires Scratch(tools, voice, folder, entries[..i], fs).Success?
    requires EntryFit(tools, voice, entries[i]).None?
    ensures Scratch(tools, voice, folder, entries, fs) == Failure(i)
  {
    ScratchFailsAtFirst(tools, voice, folder, entries[..i], fs);
    ScratchFailsAtFirst(tools, voice, folder, entries, fs);
    assert !AllFit(tools, voice, entries);
    var j := Scratch(tools, voice, folder, entries, fs).error;
    assert forall k :: 0 <= k < i ==> entries[..i][k] == entries[k];
    assert forall k :: 0 <= k < j ==> entries[..j][k] == entries[k];
  }

  /** One more successful iteration of the loop over a prefix of `entries`. */
  lemma ScratchGrows(tools: Tools, voice: string, folder: string, entries: seq<Entry>,
                     fs: FileSystem, i: nat, current: FileSystem)
    requires i < |entries|
    requires Scratch(tools, voice, folder, entries[..i], fs) == Success(current)
    requires EntryFit(tools, voice, entries[i]).Some?
    ensures Scratch(tools, voice, folder, entries[..i + 1], fs)
      == Success(MakeSilence(current, entries[i].pauseMs, PausePath(folder, entries[i]))
                   [SpeechPath(folder, entries[i]) := EntryFit(tools, voice, entries[i]).value.output])
  {
    var p := entries[..i + 1];
    assert p[..|p| - 1] == entries[..i];
    assert p[|p| - 1] == entries[i];
  }

  /** One more entry adds its pause path and then its speech path. */
  lemma SegmentsGrow(folder: string, entries: seq<Entry>, i: nat)
    requires i < |entries|
    ensures SegmentPaths(folder, entries[..i + 1])
      == SegmentPaths(folder, entries[..i]) + [PausePath(folder, entries[i]), SpeechPath(folder, entries[i])]
  {
    var p := entries[..i + 1];
    assert p[..|p| - 1] == entries[..i];
    assert p[|p| - 1] == entries[i];
  }

  lemma AppendTwo<T>(s: seq<T>, a: T, b: T)
    ensures s + [a] + [b] == s + [a, b]
  {
  }

  // ---------------------------------------------------------------------------
  // What the dub contains
  // ---------------------------------------------------------------------------

  /** No existing path lies in `folder`: it is the folder just created for this dub. */
  ghost predicate FreshFolder(fs: FileSystem, folder: string)
  {
    forall p :: p in fs ==> !IsUnder(p, folder)
  }

  function Positive(x: int): nat
  {
    if x > 0 then x else 0
  }

  /** What a clip contributes to the joined track: nothing when the file is empty. */
  function SpeechMs(c: Clip): nat
  {
    if c.sizeBytes > 0 then c.durationMs else 0
  }

  /** The reconciled speech of one entry, with the entry's window as target. */
  function EntryFit(tools: Tools, voice: string, e: Entry): Option<Fit>
  {
    TextToSpeechSrt(tools, voice, e.text, e.endMs - e.startMs)
  }

  /** The synthesis of every entry succeeds. */
  predicate AllFit(tools: Tools, voice: string, entries: seq<Entry>)
  {
    forall k :: 0 <= k < |entries| ==> EntryFit(tools, voice, entries[k]).Some?
  }

  /** The speech clip of every entry, in entry order. */
  function Outputs(tools: Tools, voice: string, entries: seq<Entry>): (outs: seq<Clip>)
    requires AllFit(tools, voice, entries)
    ensures |outs| == |entries|
    ensures forall k :: 0 <= k < |entries| ==> outs[k] == EntryFit(tools, voice, entries[k]).value.output
  {
    seq(|entries|, k requires 0 <= k < |entries| => EntryFit(tools, voice, entries[k]).value.output)
  }

  /** One step of the loop: the failure of the shorter loop stays, else the last
      entry's synthesis decides. */
  lemma LoopStep(tools: Tools, voice: string, folder: string, entries: seq<Entry>, fs: FileSystem)
    requires entries != []
    ensures var n := |entries|;
      var before := Scratch(tools, voice, folder, entries[..n - 1], fs);
      && (before.Failure? ==> Scratch(tools, voice, folder, entries, fs) == before)
      && (before.Success? && EntryFit(tools, voice, entries[n - 1]).None? ==>
            Scratch(tools, voice, folder, entries, fs) == Failure(n - 1))
      && (before.Success? && EntryFit(tools, voice, entries[n - 1]).Some? ==>
            Scratch(tools, voice, folder, entries, fs).Success?)
  {
  }

  lemma AllFitSnoc(tools: Tools, voice: string, entries: seq<Entry>)
    requires entries != []
    ensures var n := |entries|;
      AllFit(tools, voice, entries) <==>
        AllFit(tools, voice, entries[..n - 1]) && EntryFit(tools, voice, entries[n - 1]).Some?
  {
    var n := |entries|;
    assert forall k :: 0 <= k < n - 1 ==> entries[..n - 1][k] == entries[k];
  }

  /** The loop over the entries fails exactly when some synthesis raises, and then
      it fails at the first such entry. */
  lemma {:induction false} ScratchFailsAtFirst(tools: Tools, voice: string, folder: string,
                                               entries: seq<Entry>, fs: FileSystem)
    ensures Scratch(tools, voice, folder, entries, fs).Success? <==> AllFit(tools, voice, entries)
    ensures Scratch(tools, voice, folder, entries, fs).Failure? ==>
      var i := Scratch(tools, voice, folder, entries, fs).error;
      && EntryFit(tools, voice, entries[i]).None?
      && AllFit(tools, voice, entries[..i])
    decreases |entries|
  {
    if entries != [] {
      var n := |entries|;
      var prefix := entries[..n - 1];
      ScratchFailsAtFirst(tools, voice, folder, prefix, fs);
      LoopStep(tools, voice, folder, entries, fs);
      AllFitSnoc(tools, voice, entries);
      var r := Scratch(tools, voice, folder, prefix, fs);
      if r.Failure? {
        assert prefix[..r.error] == entries[..r.error];
        assert prefix[r.error] == entries[r.error];
      } else {
        assert entries[..n - 1] == prefix;
      }
    }
  }

  /** The length the dub should have: per entry, its pause when positive, then the
      length of its speech file. */
  function DubMs(entries: seq<Entry>, outs: seq<Clip>): nat
    requires |outs| == |entries|
  {
    if entries == [] then 0
    else
      var n := |entries|;
      DubMs(entries[..n - 1], outs[..n - 1]) + Positive(entries[n - 1].pauseMs) + SpeechMs(outs[n - 1])
  }

  /** Distinct relative names give distinct paths in the same folder. */
  lemma JoinDiffers(dir: string, a: string, b: string)
    requires a != b && '/' !in a && '/' !in b
    ensures Join(dir, a) != Join(dir, b)
  {
    NoSlashRelative(a);
    NoSlashRelative(b);
    JoinRelative(dir, a);
    JoinRelative(dir, b);
    var p := DirPrefix(dir);
    assert a == (p + a)[|p|..];
    assert b == (p + b)[|p|..];
  }

  lemma NoSlashRelative(a: string)
    requires '/' !in a
    ensures !StartsWith(a, "/")
  {
    if |a| >= 1 { assert a[0] in a; }
  }

  /** A non-empty relative name joined onto a non-empty folder lies inside it. */
  lemma JoinedInside(folder: string, a: string)
    requires folder != "" && a != "" && '/' !in a
    ensures IsUnder(Join(folder, a), folder)
  {
    NoSlashRelative(a);
    JoinRelative(folder, a);
  }

  /** Outside the folder, the scratch filesystem is the original one. */
  ghost predicate OutsideUnchanged(folder: string, fs: FileSystem, sc: FileSystem)
  {
    forall p :: !IsUnder(p, folder) ==> (p in sc <==> p in fs) && (p in sc ==> sc[p] == fs[p])
  }

  /** Inside the folder there are only recorded paths. */
  ghost predicate InsideRecorded(folder: string, entries: seq<Entry>, sc: FileSystem)
  {
    forall p :: p in sc && IsUnder(p, folder) ==> p in SegmentPaths(folder, entries)
  }

  /** Every entry's speech file holds its clip. */
  predicate SpeechWritten(folder: string, entries: seq<Entry>, outs: seq<Clip>, sc: FileSystem)
    requires |outs| == |entries|
  {
    forall k :: 0 <= k < |entries| ==>
      SpeechPath(folder, entries[k]) in sc && sc[SpeechPath(folder, entries[k])] == outs[k]
  }

  /** Every entry's pause file exists iff its pause is positive, and then holds that much silence. */
  predicate PausesWritten(folder: string, entries: seq<Entry>, sc: FileSystem)
  {
    forall k :: 0 <= k < |entries| ==>
      (PausePath(folder, entries[k]) in sc <==> entries[k].pauseMs > 0)
      && (PausePath(folder, entries[k]) in sc ==>
            sc[PausePath(folder, entries[k])] == WavExport(entries[k].pauseMs, SilenceFrameRate))
  }

  /** What the scratch filesystem holds after the loop over `entries`, whose speech
      clips are `outs`. */
  ghost predicate ScratchHolds(folder: string, entries: seq<Entry>, outs: seq<Clip>,
                               fs: FileSystem, sc: FileSystem)
    requires |outs| == |entries|
  {
    && OutsideUnchanged(folder, fs, sc)
    && InsideRecorded(folder, entries, sc)
    && SpeechWritten(folder, entries, outs, sc)
    && PausesWritten(folder, entries, sc)
  }

  /** The paths of earlier entries differ from both paths of the last one. */
  lemma StepOthers(folder: string, entries: seq<Entry>)
    requires entries != [] && NamesDistinct(entries) && NamesPlain(entries)
    ensures forall k :: 0 <= k < |entries| - 1 ==>
      && PausePath(folder, entries[k]) != PausePath(folder, entries[|entries| - 1])
      && PausePath(folder, entries[k]) != SpeechPath(folder, entries[|entries| - 1])
      && SpeechPath(folder, entries[k]) != PausePath(folder, entries[|entries| - 1])
      && SpeechPath(folder, entries[k]) != SpeechPath(folder, entries[|entries| - 1])
    ensures PausePath(folder, entries[|entries| - 1]) != SpeechPath(folder, entries[|entries| - 1])
  {
    var n := |entries|;
    var last := entries[n - 1];
    forall k | 0 <= k < n - 1
      ensures PausePath(folder, entries[k]) != PausePath(folder, last)
      ensures PausePath(folder, entries[k]) != SpeechPath(folder, last)
      ensures SpeechPath(folder, entries[k]) != PausePath(folder, last)
      ensures SpeechPath(folder, entries[k]) != SpeechPath(folder, last)
    {
      var e := entries[k];
      JoinDiffers(folder, e.pauseName, last.pauseName);
      JoinDiffers(folder, e.pauseName, last.audioName);
      JoinDiffers(folder, e.audioName, last.pauseName);
      JoinDiffers(folder, e.audioName, last.audioName);
    }
    JoinDiffers(folder, last.pauseName, last.audioName);
  }

  /** A path that is neither the pause nor the speech path of any entry is not recorded. */
  lemma {:induction false} NotRecorded(folder: string, entries: seq<Entry>, x: string)
    requires forall k :: 0 <= k < |entries| ==> PausePath(folder, entries[k]) != x && SpeechPath(folder, entries[k]) != x
    ensures x !in SegmentPaths(folder, entries)
    decreases |entries|
  {
    if entries != [] {
      var prefix := entries[..|entries| - 1];
      assert forall k :: 0 <= k < |prefix| ==> prefix[k] == entries[k];
      NotRecorded(folder, prefix, x);
    }
  }

  /** Distinct and plain names stay so in a prefix. */
  lemma PrefixNames(entries: seq<Entry>, m: nat)
    requires m <= |entries| && NamesDistinct(entries) && NamesPlain(entries)
    ensures NamesDistinct(entries[..m]) && NamesPlain(entries[..m])
  {
    assert forall i :: 0 <= i < m ==> entries[..m][i] == entries[i];
  }

  /** With a fresh folder and distinct names, every entry's speech file and (for a
      positive pause) its silence file are in the scratch filesystem, nothing else is
      in the folder, and nothing outside the folder was touched. */
  lemma {:induction false} ScratchContents(tools: Tools, voice: string, folder: string,
                                           entries: seq<Entry>, fs: FileSystem)
    requires folder != "" && FreshFolder(fs, folder)
    requires NamesDistinct(entries) && NamesPlain(entries)
    requires Scratch(tools, voice, folder, entries, fs).Success?
    ensures AllFit(tools, voice, entries)
    ensures ScratchHolds(folder, entries, Outputs(tools, voice, entries), fs,
                         Scratch(tools, voice, folder, entries, fs).value)
    decreases |entries|
  {
    ScratchFailsAtFirst(tools, voice, folder, entries, fs);
    var sc := Scratch(tools, voice, folder, entries, fs).value;
    if entries == [] {
      assert sc == fs;
    } else {
      var n := |entries|;
      var last := entries[n - 1];
      var prefix := entries[..n - 1];
      PrefixNames(entries, n - 1);
      ScratchContents(tools, voice, folder, prefix, fs);
      var before := Scratch(tools, voice, folder, prefix, fs).value;
      var outs := Outputs(tools, voice, entries);
      OutputsPrefix(tools, voice, entries);
      ScratchLast(tools, voice, folder, entries, fs);
      ScratchStep(folder, entries, outs, fs, before, sc);
    }
  }

  lemma OutputsPrefix(tools: Tools, voice: string, entries: seq<Entry>)
    requires entries != [] && AllFit(tools, voice, entries)
    ensures AllFit(tools, voice, entries[..|entries| - 1])
    ensures Outputs(tools, voice, entries[..|entries| - 1]) == Outputs(tools, voice, entries)[..|entries| - 1]
  {
    var n := |entries|;
    var prefix := entries[..n - 1];
    assert forall k :: 0 <= k < n - 1 ==> prefix[k] == entries[k];
  }

  /** A successful loop ends with the last entry's pause and speech written onto the
      filesystem the shorter loop left. */
  lemma ScratchLast(tools: Tools, voice: string, folder: string, entries: seq<Entry>, fs: FileSystem)
    requires entries != [] && Scratch(tools, voice, folder, entries, fs).Success?
    ensures var n := |entries|;
      var last := entries[n - 1];
      && Scratch(tools, voice, folder, entries[..n - 1], fs).Success?
      && EntryFit(tools, voice, last).Some?
      && Scratch(tools, voice, folder, entries, fs).value ==
           MakeSilence(Scratch(tools, voice, folder, entries[..n - 1], fs).value, last.pauseMs,
                       PausePath(folder, last))[SpeechPath(folder, last) := EntryFit(tools, voice, last).value.output]
  {
  }

  /** One iteration of the loop keeps `ScratchHolds`. */
  lemma ScratchStep(folder: string, entries: seq<Entry>, outs: seq<Clip>,
                    fs: FileSystem, before: FileSystem, after: FileSystem)
    requires folder != "" && entries != [] && |outs| == |entries|
    requires NamesDistinct(entries) && NamesPlain(entries)
    requires ScratchHolds(folder, entries[..|entries| - 1], outs[..|entries| - 1], fs, before)
    requires after == MakeSilence(before, entries[|entries| - 1].pauseMs, PausePath(folder, entries[|entries| - 1]))
      [SpeechPath(folder, entries[|entries| - 1]) := outs[|entries| - 1]]
    ensures ScratchHolds(folder, entries, outs, fs, after)
  {
    var n := |entries|;
    var last := entries[n - 1];
    var prefix := entries[..n - 1];
    var pp, sp := PausePath(folder, last), SpeechPath(folder, last);
    JoinedInside(folder, last.pauseName);
    JoinedInside(folder, last.audioName);
    StepOthers(folder, entries);
    StepOutside(folder, fs, before, after, pp, sp, last.pauseMs, outs[n - 1]);
    StepInside(folder, entries, before, after, outs[n - 1]);
    assert forall k :: 0 <= k < n - 1 ==> prefix[k] == entries[k];
    NotRecorded(folder, prefix, pp);
    assert pp !in before;
    StepSpeech(folder, entries, outs, before, after);
    StepPauses(folder, entries, before, after, outs[n - 1]);
  }

  lemma StepOutside(folder: string, fs: FileSystem, before: FileSystem, after: FileSystem,
                    pp: string, sp: string, pauseMs: int, out: Clip)
    requires IsUnder(pp, folder) && IsUnder(sp, folder)
    requires OutsideUnchanged(folder, fs, before)
    requires after == MakeSilence(before, pauseMs, pp)[sp := out]
    ensures OutsideUnchanged(folder, fs, after)
  {
  }

  lemma StepInside(folder: string, entries: seq<Entry>, before: FileSystem, after: FileSystem, out: Clip)
    requires entries != []
    requires InsideRecorded(folder, entries[..|entries| - 1], before)
    requires after == MakeSilence(before, entries[|entries| - 1].pauseMs, PausePath(folder, entries[|entries| - 1]))
      [SpeechPath(folder, entries[|entries| - 1]) := out]
    ensures InsideRecorded(folder, entries, after)
  {
    var n := |entries|;
    var prefix := entries[..n - 1];
    var pp, sp := PausePath(folder, entries[n - 1]), SpeechPath(folder, entries[n - 1]);
    assert SegmentPaths(folder, entries) == SegmentPaths(folder, prefix) + [pp, sp];
  }

  lemma StepSpeech(folder: string, entries: seq<Entry>, outs: seq<Clip>, before: FileSystem, after: FileSystem)
    requires entries != [] && |outs| == |entries|
    requires forall k :: 0 <= k < |entries| - 1 ==>
      SpeechPath(folder, entries[k]) != PausePath(folder, entries[|entries| - 1])
      && SpeechPath(folder, entries[k]) != SpeechPath(folder, entries[|entries| - 1])
    requires SpeechWritten(folder, entries[..|entries| - 1], outs[..|entries| - 1], before)
    requires after == MakeSilence(before, entries[|entries| - 1].pauseMs, PausePath(folder, entries[|entries| - 1]))
      [SpeechPath(folder, entries[|entries| - 1]) := outs[|entries| - 1]]
    ensures SpeechWritten(folder, entries, outs, after)
  {
    var n := |entries|;
    forall k | 0 <= k < n - 1
      ensures SpeechPath(folder, entries[k]) in after && after[SpeechPath(folder, entries[k])] == outs[k]
    {
      assert entries[..n - 1][k] == entries[k] && outs[..n - 1][k] == outs[k];
    }
  }

  lemma StepPauses(folder: string, entries: seq<Entry>, before: FileSystem, after: FileSystem, out: Clip)
    requires entries != []
    requires forall k :: 0 <= k < |entries| - 1 ==>
      PausePath(folder, entries[k]) != PausePath(folder, entries[|entries| - 1])
      && PausePath(folder, entries[k]) != SpeechPath(folder, entries[|entries| - 1])
    requires PausePath(folder, entries[|entries| - 1]) != SpeechPath(folder, entries[|entries| - 1])
    requires PausePath(folder, entries[|entries| - 1]) !in before
    requires PausesWritten(folder, entries[..|entries| - 1], before)
    requires after == MakeSilence(before, entries[|entries| - 1].pauseMs, PausePath(folder, entries[|entries| - 1]))
      [SpeechPath(folder, entries[|entries| - 1]) := out]
    ensures PausesWritten(folder, entries, after)
  {
    var n := |entries|;
    forall k | 0 <= k < n - 1
      ensures (PausePath(folder, entries[k]) in after <==> entries[k].pauseMs > 0)
      ensures PausePath(folder, entries[k]) in after ==>
        after[PausePath(folder, entries[k])] == WavExport(entries[k].pauseMs, SilenceFrameRate)
    {
      assert entries[..n - 1][k] == entries[k];
    }
  }

  /** The joined track of a dub is, entry by entry, the positive part of its pause
      followed by its speech: a pause that is not positive contributes nothing. */
  lemma DubLength(tools: Tools, voice: string, folder: string, entries: seq<Entry>, fs: FileSystem)
    requires folder != "" && FreshFolder(fs, folder)
    requires NamesDistinct(entries) && NamesPlain(entries)
    requires Scratch(tools, voice, folder, entries, fs).Success?
    ensures AllFit(tools, voice, entries)
    ensures JoinedMs(SegmentPaths(folder, entries), Scratch(tools, voice, folder, entries, fs).value)
      == DubMs(entries, Outputs(tools, voice, entries))
  {
    var sc := Scratch(tools, voice, folder, entries, fs).value;
    ScratchContents(tools, voice, folder, entries, fs);
    var outs := Outputs(tools, voice, entries);
    JoinedPrefix(folder, entries, outs, sc, |entries|);
    assert entries[..|entries|] == entries;
    assert outs[..|entries|] == outs;
  }

  lemma {:induction false} JoinedPrefix(folder: string, entries: seq<Entry>, outs: seq<Clip>,
                                        sc: FileSystem, m: nat)
    requires m <= |entries| == |outs|
    requires SpeechWritten(folder, entries, outs, sc) && PausesWritten(folder, entries, sc)
    ensures JoinedMs(SegmentPaths(folder, entries[..m]), sc) == DubMs(entries[..m], outs[..m])
    decreases m
  {
    if m > 0 {
      var e := entries[m - 1];
      assert entries[..m][..m - 1] == entries[..m - 1];
      assert outs[..m][..m - 1] == outs[..m - 1];
      JoinedPrefix(folder, entries, outs, sc, m - 1);
      var pp, sp := PausePath(folder, e), SpeechPath(folder, e);
      KeptSpec(SegmentPaths(folder, entries[..m - 1]), [pp, sp], sc);
      assert [pp, sp][..1] == [pp];
      assert [pp][..0] == [];
      assert JoinedMs([pp], sc) == Positive(e.pauseMs);
      assert JoinedMs([pp, sp], sc) == Positive(e.pauseMs) + SpeechMs(outs[m - 1]);
    }
  }

  /** When no cue overlaps the one before it and every speech file fills its window
      exactly, the dub is exactly as long as the subtitles: it ends at the last cue's end. */
  lemma DubMatchesSubtitles(entries: seq<Entry>, outs: seq<Clip>)
    requires Chained(entries) && entries != [] && |outs| == |entries|
    requires forall k :: 0 <= k < |entries| ==> entries[k].pauseMs >= 0
    requires forall k :: 0 <= k < |entries| ==> SpeechMs(outs[k]) == entries[k].endMs - entries[k].startMs
    ensures DubMs(entries, outs) == entries[|entries| - 1].endMs
  {
    DubIsTimeline(entries, outs);
    TimelineReachesLastEnd(entries);
  }

  lemma {:induction false} DubIsTimeline(entries: seq<Entry>, outs: seq<Clip>)
    requires |outs| == |entries|
    requires forall k :: 0 <= k < |entries| ==> entries[k].pauseMs >= 0
    requires forall k :: 0 <= k < |entries| ==> SpeechMs(outs[k]) == entries[k].endMs - entries[k].startMs
    ensures DubMs(entries, outs) == TimelineMs(entries)
    decreases |entries|
  {
    if entries != [] {
      var n := |entries|;
      var prefix := entries[..n - 1];
      assert forall k :: 0 <= k < n - 1 ==> prefix[k] == entries[k] && outs[..n - 1][k] == outs[k];
      DubIsTimeline(prefix, outs[..n - 1]);
      assert entries[n - 1].pauseMs >= 0;
    }
  }

  /** After a dub, the scratch folder is gone, the track is at the output path when
      that lies outside the folder, and every other path outside the folder is as before. */
  lemma DubLeavesOnlyTrack(tools: Tools, voice: string, folder: string, entries: seq<Entry>,
                           out: string, track: Clip, fs: FileSystem)
    requires folder != "" && FreshFolder(fs, folder)
    requires NamesDistinct(entries) && NamesPlain(entries)
    requires Scratch(tools, voice, folder, entries, fs).Success?
    ensures var final := RemoveTree(Scratch(tools, voice, folder, entries, fs).value[out := track], folder);
      && (forall p :: p in final ==> !IsUnder(p, folder))
      && (!IsUnder(out, folder) ==> out in final && final[out] == track)
      && (forall p :: p != out && !IsUnder(p, folder) ==> (p in final <==> p in fs) && (p in final ==> final[p] == fs[p]))
  {
    ScratchContents(tools, voice, folder, entries, fs);
  }

  // ---------------------------------------------------------------------------
  // Names (`get_subtitle_dub_path`, `create_folder_for_srt`)
  // ---------------------------------------------------------------------------

  /** `strftime("%I_%M_%p")`: the hour on the 12-hour clock and the minute, each two
      digits, then AM or PM. */
  function ClockStamp(hour: nat, minute: nat): string
    requires hour < 24 && minute < 60
  {
    var h12 := if hour % 12 == 0 then 12 else hour % 12;
    ZeroPad(h12, 2) + "_" + ZeroPad(minute, 2) + "_" + (if hour < 12 then "AM" else "PM")
  }

  /** The stamp has eight characters, from which the time of day can be read back:
      the 12-hour field is between 1 and 12, and with the AM/PM marker it gives the hour. */
  lemma ClockStampSpec(hour: nat, minute: nat)
    requires hour < 24 && minute < 60
    ensures var r := ClockStamp(hour, minute);
      && |r| == 8 && r[2] == '_' && r[5] == '_' && '/' !in r
      && AllDigits(r[3..5]) && DigitsValue(r[3..5]) == minute
      && AllDigits(r[..2]) && 1 <= DigitsValue(r[..2]) <= 12
      && (r[6..] == "AM" || r[6..] == "PM")
      && hour == DigitsValue(r[..2]) % 12 + (if r[6..] == "PM" then 12 else 0)
  {
    ClockStampShape(hour, minute);
    ClockStampHour(hour, minute);
  }

  lemma ClockStampShape(hour: nat, minute: nat)
    requires hour < 24 && minute < 60
    ensures var r := ClockStamp(hour, minute);
      && |r| == 8 && r[2] == '_' && r[5] == '_' && '/' !in r
      && AllDigits(r[3..5]) && DigitsValue(r[3..5]) == minute
  {
    var h12 := if hour % 12 == 0 then 12 else hour % 12;
    var m := if hour < 12 then "AM" else "PM";
    MarkersPlain(m);
    TwoDigits();
    ZeroPadExact(h12, 2);
    ZeroPadExact(minute, 2);
    var a, b := ZeroPad(h12, 2), ZeroPad(minute, 2);
    DigitsNoSlash(a);
    DigitsNoSlash(b);
    assert ClockStamp(hour, minute) == a + "_" + b + "_" + m;
    StampParts(a, b, m);
  }

  lemma ClockStampHour(hour: nat, minute: nat)
    requires hour < 24 && minute < 60
    ensures var r := ClockStamp(hour, minute);
      && |r| == 8
      && AllDigits(r[..2]) && 1 <= DigitsValue(r[..2]) <= 12
      && (r[6..] == "AM" || r[6..] == "PM")
      && hour == DigitsValue(r[..2]) % 12 + (if r[6..] == "PM" then 12 else 0)
  {
    var h12 := if hour % 12 == 0 then 12 else hour % 12;
    TwoDigits();
    ZeroPadExact(h12, 2);
    ZeroPadExact(minute, 2);
    var a, b := ZeroPad(h12, 2), ZeroPad(minute, 2);
    var m := if hour < 12 then "AM" else "PM";
    assert ClockStamp(hour, minute) == a + "_" + b + "_" + m;
    StampParts(a, b, m);
    HalfDay(hour, h12);
    MarkersDiffer();
  }

  lemma TwoDigits()
    ensures Pow10(2) == 100
  {
    assert Pow10(1) == 10;
  }

  lemma HalfDay(hour: nat, h12: nat)
    requires hour < 24 && h12 == if hour % 12 == 0 then 12 else hour % 12
    ensures 1 <= h12 <= 12 && hour == h12 % 12 + (if hour < 12 then 0 else 12)
  {
  }

  lemma MarkersPlain(m: string)
    requires m == "AM" || m == "PM"
    ensures |m| == 2 && '/' !in m
  {
  }

  lemma MarkersDiffer()
    ensures "AM" != "PM"
  {
    assert "AM"[0] != "PM"[0];
  }

  lemma StampParts(a: string, b: string, m: string)
    requires |a| == 2 && |b| == 2 && |m| == 2
    ensures var r := a + "_" + b + "_" + m;
      && |r| == 8 && r[..2] == a && r[3..5] == b && r[6..] == m && r[2] == '_' && r[5] == '_'
      && ('/' !in a && '/' !in b && '/' !in m ==> '/' !in r)
  {
  }

  lemma DigitsNoSlash(s: string)
    requires AllDigits(s)
    ensures '/' !in s
  {
    assert forall k :: 0 <= k < |s| ==> IsDigit(s[k]);
  }

  /** The file name of the dub: the subtitle file's stem, the language, the time and a
      random suffix (the first six characters of a UUID), as a `.wav`. */
  function DubFileName(srtFilePath: string, language: string, stamp: string, random6: string): string
  {
    Root(Basename(srtFilePath)) + "_" + language + "_" + stamp + "_" + random6 + ".wav"
  }

  /** `get_subtitle_dub_path`, with the clock and the random suffix as parameters. */
  function GetSubtitleDubPath(basePath: string, srtFilePath: string, language: string,
                              hour: nat, minute: nat, random6: string): string
    requires hour < 24 && minute < 60
  {
    Join(Join(basePath, "TTS_DUB"), DubFileName(srtFilePath, language, ClockStamp(hour, minute), random6))
  }

  /** `create_folder_for_srt`, with the random suffix (four characters of a UUID) as a parameter. */
  function CreateFolderForSrt(basePath: string, srtFilePath: string, random4: string): string
  {
    Join(Join(basePath, "dummy"), Root(Basename(srtFilePath)) + "_" + random4)
  }

  lemma StemHasNoSlash(srtFilePath: string)
    ensures '/' !in Root(Basename(srtFilePath))
  {
    var b := Basename(srtFilePath);
    PrefixLacks(b, ExtIndex(b), '/');
  }

  lemma PrefixLacks(s: string, i: nat, c: char)
    requires i <= |s| && c !in s
    ensures c !in s[..i]
  {
    assert forall k :: 0 <= k < i ==> s[..i][k] == s[k];
  }

  lemma PlainName(a: string, b: string)
    requires '/' !in a && '/' !in b
    ensures '/' !in a + b
  {
  }

  /** The dub is a `.wav` file directly in `<base>/TTS_DUB` whose name is `DubFileName`
      and whose stem begins with the subtitle file's stem and the language. */
  lemma DubPathSpec(basePath: string, srtFilePath: string, language: string,
                    hour: nat, minute: nat, random6: string)
    requires hour < 24 && minute < 60
    requires '/' !in language && '/' !in random6
    ensures var r := GetSubtitleDubPath(basePath, srtFilePath, language, hour, minute, random6);
      var name := DubFileName(srtFilePath, language, ClockStamp(hour, minute), random6);
      && r == DirPrefix(Join(basePath, "TTS_DUB")) + name
      && Basename(r) == name
      && Ext(r) == ".wav"
      && StartsWith(Root(Basename(r)), Root(Basename(srtFilePath)) + "_" + language + "_")
  {
    var stamp := ClockStamp(hour, minute);
    var stem := Root(Basename(srtFilePath));
    StemHasNoSlash(srtFilePath);
    StampHasNoSlash(hour, minute);
    var name := DubPathParts(basePath, stem, language, stamp, random6);
    assert DubFileName(srtFilePath, language, stamp, random6) == name;
  }

  lemma StampHasNoSlash(hour: nat, minute: nat)
    requires hour < 24 && minute < 60
    ensures '/' !in ClockStamp(hour, minute)
  {
    ClockStampShape(hour, minute);
  }

  lemma PlainFolder(top: string)
    requires top == "TTS_DUB" || top == "dummy"
    ensures top != "" && '/' !in top
  {
  }

  /** The dub path for given name parts, none holding '/'. */
  lemma DubPathParts(basePath: string, stem: string, language: string, stamp: string,
                     random6: string) returns (name: string)
    requires '/' !in stem && '/' !in language && '/' !in stamp && '/' !in random6
    ensures name == stem + "_" + language + "_" + stamp + "_" + random6 + ".wav"
    ensures var r := Join(Join(basePath, "TTS_DUB"), name);
      && r == DirPrefix(Join(basePath, "TTS_DUB")) + name
      && r == DirPrefix(basePath) + "TTS_DUB/" + name
      && Basename(r) == name
      && Ext(r) == ".wav"
      && StartsWith(Root(name), stem + "_" + language + "_")
  {
    var front := stem + "_" + language + "_";
    var middle := stamp + "_" + random6;
    name := stem + "_" + language + "_" + stamp + "_" + random6 + ".wav";
    assert name == front + middle + ".wav";
    NameFacts(front, middle, stem, language, stamp, random6);
    DubNameInDir(basePath, name, front, middle, |stem|);
  }

  lemma DubNameInDir(basePath: string, name: string, front: string, middle: string, at: nat)
    requires name == front + middle + ".wav" && '/' !in name
    requires at < |front| && front[at] == '_'
    ensures var r := Join(Join(basePath, "TTS_DUB"), name);
      && r == DirPrefix(Join(basePath, "TTS_DUB")) + name
      && r == DirPrefix(basePath) + "TTS_DUB/" + name
      && Basename(r) == name
      && Ext(r) == ".wav"
      && StartsWith(Root(name), front)
  {
    assert '.' !in ".wav"[1..];
    assert EndsWith(name, ".wav");
    assert name[at] == front[at];
    DubInDir(Join(basePath, "TTS_DUB"), name, at);
    NameRoot(name, front, middle, at);
    DubDirPrefix(basePath);
  }

  lemma DubDirPrefix(basePath: string)
    ensures DirPrefix(Join(basePath, "TTS_DUB")) == DirPrefix(basePath) + "TTS_DUB/"
  {
    PlainFolder("TTS_DUB");
    TopFolder(basePath, "TTS_DUB");
    assert "TTS_DUB" + "/" == "TTS_DUB/";
  }

  lemma NameFacts(front: string, middle: string, stem: string, language: string, stamp: string, random6: string)
    requires front == stem + "_" + language + "_" && middle == stamp + "_" + random6
    requires '/' !in stem && '/' !in language && '/' !in stamp && '/' !in random6
    ensures '/' !in front + middle + ".wav"
    ensures |stem| < |front| && front[|stem|] == '_'
  {
  }

  /** A `.wav` name without '/' that has a non-dot at `at` keeps that name and
      extension once joined onto a directory. */
  lemma DubInDir(dir: string, name: string, at: nat)
    requires '/' !in name && EndsWith(name, ".wav") && at < |name| - 4 && name[at] != '.'
    ensures Join(dir, name) == DirPrefix(dir) + name
    ensures Basename(Join(dir, name)) == name
    ensures Ext(Join(dir, name)) == ".wav"
  {
    assert !StartsWith(name, "/") by { assert name[0] in name; }
    JoinRelative(dir, name);
    BasenameOfJoin(dir, name);
    WavAfterPrefix(DirPrefix(dir), name, at);
  }

  lemma WavAfterPrefix(p: string, name: string, at: nat)
    requires '/' !in name && EndsWith(name, ".wav") && at < |name| - 4 && name[at] != '.'
    ensures Ext(p + name) == ".wav"
  {
    var r := p + name;
    forall k | |p| <= k < |r| ensures r[k] != '/' {
      assert r[k] == name[k - |p|];
      assert name[k - |p|] in name;
    }
    RFindBefore(r, '/', |p|);
    assert r[|p| + at] == name[at];
    assert r[|r| - 4..] == name[|name| - 4..];
    DubExt(r, |p| + at);
  }

  /** A path ending in ".wav", whose last component has a non-dot at `at`, has extension ".wav". */
  lemma DubExt(r: string, at: nat)
    requires EndsWith(r, ".wav")
    requires RFind(r, '/') < at < |r| - 4 && r[at] != '.'
    ensures Ext(r) == ".wav"
  {
    WavSuffix();
    var lo := RFind(r, '/') + 1;
    assert lo <= at < |r| - 4 && r[at] != '.';
    assert HasNonDot(r, lo, |r| - 4);
    ExtIs(r, ".wav");
  }

  /** The literal facts `ExtIs` needs about ".wav". */
  lemma WavSuffix()
    ensures |".wav"| == 4 && ".wav"[0] == '.' && '.' !in ".wav"[1..] && '/' !in ".wav"
  {
    assert ".wav"[1..] == "wav";
  }

  /** The stem of `front + middle + ".wav"`, when `front` has a non-dot, keeps `front`. */
  lemma NameRoot(name: string, front: string, middle: string, at: nat)
    requires name == front + middle + ".wav" && '/' !in name
    requires at < |front| && front[at] != '.'
    ensures StartsWith(Root(name), front)
  {
    assert '.' !in ".wav"[1..];
    assert EndsWith(name, ".wav");
    RFindBefore(name, '/', 0);
    assert name[at] == front[at];
    ExtIs(name, ".wav");
    assert Ext(name) == ".wav";
    SplitExtParts(name);
    assert Root(name) == name[..|name| - 4];
  }

  /** The scratch folder is inside `<base>/dummy` and the dub is outside the scratch
      folder, so removing the folder keeps the dub. */
  lemma DubOutsideScratch(basePath: string, srtFilePath: string, language: string,
                          hour: nat, minute: nat, random6: string, random4: string)
    requires hour < 24 && minute < 60
    requires '/' !in language && '/' !in random6 && '/' !in random4
    ensures CreateFolderForSrt(basePath, srtFilePath, random4) != ""
    ensures IsUnder(CreateFolderForSrt(basePath, srtFilePath, random4), Join(basePath, "dummy"))
    ensures !IsUnder(GetSubtitleDubPath(basePath, srtFilePath, language, hour, minute, random6),
                     CreateFolderForSrt(basePath, srtFilePath, random4))
  {
    var p := DirPrefix(basePath);
    var fname := FolderShape(basePath, srtFilePath, random4);
    var name := DubPathPrefix(basePath, srtFilePath, language, hour, minute, random6);
    DistinctTopFolders(p, name, fname);
  }

  /** The dub path is `<base>/TTS_DUB/<name>`. */
  lemma DubPathPrefix(basePath: string, srtFilePath: string, language: string,
                      hour: nat, minute: nat, random6: string) returns (name: string)
    requires hour < 24 && minute < 60
    requires '/' !in language && '/' !in random6
    ensures GetSubtitleDubPath(basePath, srtFilePath, language, hour, minute, random6)
      == DirPrefix(basePath) + "TTS_DUB/" + name
  {
    var stamp := ClockStamp(hour, minute);
    var stem := Root(Basename(srtFilePath));
    StemHasNoSlash(srtFilePath);
    StampHasNoSlash(hour, minute);
    name := DubPathParts(basePath, stem, language, stamp, random6);
    assert DubFileName(srtFilePath, language, stamp, random6) == name;
  }

  /** The scratch folder is `<base>/dummy/<fname>` for a plain, non-empty `fname`. */
  lemma FolderShape(basePath: string, srtFilePath: string, random4: string) returns (fname: string)
    requires '/' !in random4
    ensures var folder := CreateFolderForSrt(basePath, srtFilePath, random4);
      && folder == DirPrefix(basePath) + "dummy/" + fname
      && DirPrefix(folder) == folder + "/"
      && IsUnder(folder, Join(basePath, "dummy"))
  {
    var stem := Root(Basename(srtFilePath));
    StemHasNoSlash(srtFilePath);
    fname := stem + "_" + random4;
    assert '/' !in fname && fname != "";
    TopFolder(basePath, "dummy");
    var dummy := Join(basePath, "dummy");
    TopFolder(dummy, fname);
    JoinedInside(dummy, fname);
  }

  /** `Join(base, top)` for a plain top-level folder name. */
  lemma TopFolder(basePath: string, top: string)
    requires top != "" && '/' !in top
    ensures Join(basePath, top) == DirPrefix(basePath) + top
    ensures DirPrefix(Join(basePath, top)) == DirPrefix(basePath) + (top + "/")
  {
    NoSlashRelative(top);
    JoinRelative(basePath, top);
    assert top[|top| - 1] in top;
  }

  lemma DistinctTopFolders(p: string, name: string, fname: string)
    ensures !StartsWith(p + "TTS_DUB/" + name, p + "dummy/" + fname + "/")
  {
    var s, pre := p + "TTS_DUB/" + name, p + "dummy/" + fname + "/";
    if |pre| <= |s| {
      assert s[..|pre|][|p|] == s[|p|] == 'T';
      assert pre[|p|] == 'd';
    }
  }

  // ---------------------------------------------------------------------------
  // Module state and `srt_process`
  // ---------------------------------------------------------------------------

  /** A run of `srt_process` that got past the upload check: the dub path, the scratch
      folder, the entries read, and the outcome of the dub. */
  datatype SrtJob = SrtJob(dubPath: string, folder: string, entries: seq<Entry>, outcome: Result<DubRun, DubAbort>)

  /** The outcome of a job is the dub of its entries into its folder, as `SrtToDub` states it. */
  predicate DubOf(tools: Tools, voice: string, job: SrtJob, fs: FileSystem)
  {
    var scratch := Scratch(tools, voice, job.folder, job.entries, fs);
    && (job.outcome.Failure? <==> scratch.Failure?)
    && (job.outcome.Failure? ==>
          var i := job.outcome.error.entry;
          && i == scratch.error
          && Scratch(tools, voice, job.folder, job.entries[..i], fs).Success?
          && job.outcome.error.left
             == MakeSilence(Scratch(tools, voice, job.folder, job.entries[..i], fs).value,
                            job.entries[i].pauseMs, PausePath(job.folder, job.entries[i])))
    && (job.outcome.Success? ==>
          && job.outcome.value.segments == SegmentPaths(job.folder, job.entries)
          && job.outcome.value.scratch == scratch.value
          && job.outcome.value.kept == Kept(job.outcome.value.segments, job.outcome.value.scratch)
          && job.outcome.value.track.durationMs == JoinedMs(job.outcome.value.segments, job.outcome.value.scratch)
          && job.outcome.value.fs
             == RemoveTree(job.outcome.value.scratch[job.dubPath := job.outcome.value.track], job.folder))
  }

  /** The module globals of `srt_logic.py`: `USE_FFMPEG`, `FFMPEG_PATH` and `srt_voice_name`. */
  class SrtSettings {
    var useFfmpeg: bool
    var ffmpegPath: string
    var voiceName: string

    constructor()
      ensures !useFfmpeg && ffmpegPath == "" && voiceName == "af_bella"
    {
      useFfmpeg := false;
      ffmpegPath := "";
      voiceName := "af_bella";
    }

    /** `is_ffmpeg_installed`: the bundled `./ffmpeg/ffmpeg.exe` on Windows when it
        exists, else `ffmpeg`; when `-version` runs, ffmpeg is used from that command.
        A failed probe clears the flag but leaves the old path. */
    method DetectFfmpeg(isWindows: bool, localWinExists: bool, versionRuns: string -> bool)
      modifies this
      ensures var cmd := if isWindows && localWinExists then "./ffmpeg/ffmpeg.exe" else "ffmpeg";
        && useFfmpeg == versionRuns(cmd)
        && ffmpegPath == (if versionRuns(cmd) then cmd else old(ffmpegPath))
      ensures voiceName == old(voiceName)
    {
      var localWin := Join("./ffmpeg", "ffmpeg.exe");
      assert localWin == "./ffmpeg/ffmpeg.exe" by {
        assert "ffmpeg.exe"[0] != '/';
        JoinRelative("./ffmpeg", "ffmpeg.exe");
      }
      var cmd := if isWindows && localWinExists then localWin else "ffmpeg";
      if versionRuns(cmd) {
        useFfmpeg := true;
        ffmpegPath := cmd;
      } else {
        useFfmpeg := false;
      }
    }

    /** The voice choice of `srt_process`: the custom pack when `manage_files` accepts
        it, otherwise the voice chosen in the form. */
    method SelectVoice(runtime: TtsLogic.Runtime, voice: string, customVoicepack: Option<string>)
      modifies this, runtime
      ensures var custom := if customVoicepack.Some? then customVoicepack.value else "";
        && voiceName == (if TtsLogic.ValidVoicePack(old(runtime.files), custom) then custom else voice)
        && runtime.files == TtsLogic.AfterManage(old(runtime.files), custom)
      ensures useFfmpeg == old(useFfmpeg) && ffmpegPath == old(ffmpegPath)
      ensures runtime.currentModel == old(runtime.currentModel) && runtime.loaded == old(runtime.loaded)
    {
      var voicepackPath := if customVoicepack.Some? then customVoicepack.value else "";
      var accepted := false;
      if voicepackPath != "" {
        accepted := runtime.ManageFiles(voicepackPath);
      }
      if accepted {
        voiceName := voicepackPath;
      } else {
        voiceName := voice;
      }
    }

    /** `srt_process`: refuse anything but a `.srt` upload; choose the voice; then name
        the dub, read the entries, create the scratch folder and dub. The parsed cues,
        the clock, the random suffixes and the filesystem of clips are parameters. */
    method SrtProcess(runtime: TtsLogic.Runtime, srtFileName: Option<string>, voice: string,
                      customVoicepack: Option<string>, language: string, basePath: string,
                      hour: nat, minute: nat, random6: string, random4: string, cues: seq<Cue>,
                      synth: Synthesizer, ffmpeg: StretchTool, librosa: StretchTool, fs: FileSystem)
      returns (job: Option<SrtJob>)
      requires hour < 24 && minute < 60
      modifies this, runtime
      ensures job.None? <==> srtFileName.None? || !EndsWith(srtFileName.value, ".srt")
      ensures job.None? ==> voiceName == old(voiceName) && runtime.files == old(runtime.files)
      ensures useFfmpeg == old(useFfmpeg) && ffmpegPath == old(ffmpegPath)
      ensures job.None? || cues == [] ==>
        runtime.currentModel == old(runtime.currentModel) && runtime.loaded == old(runtime.loaded)
      ensures job.Some? && cues != [] ==>
        && runtime.currentModel == Some(SrtModel)
        && runtime.loaded == old(runtime.loaded) + TtsLogic.Loads(old(runtime.currentModel), [SrtModel])
      ensures job.Some? ==>
        var custom := if customVoicepack.Some? then customVoicepack.value else "";
        && voiceName == (if TtsLogic.ValidVoicePack(old(runtime.files), custom) then custom else voice)
        && runtime.files == TtsLogic.AfterManage(old(runtime.files), custom)
      ensures job.Some? ==>
        && job.value.dubPath == GetSubtitleDubPath(basePath, srtFileName.value, language, hour, minute, random6)
        && job.value.folder == CreateFolderForSrt(basePath, srtFileName.value, random4)
        && IsEntryList(cues, job.value.entries)
        && DubOf(Tools(synth, ffmpeg, librosa, useFfmpeg), voiceName, job.value, fs)
    {
      if srtFileName.None? || !EndsWith(srtFileName.value, ".srt") {
        return None;
      }
      var path := srtFileName.value;
      SelectVoice(runtime, voice, customVoicepack);
      var dubSavePath := GetSubtitleDubPath(basePath, path, language, hour, minute, random6);
      var entries := ReadSrtFile(cues);
      var folder := CreateFolderForSrt(basePath, path, random4);
      if entries != [] {
        // Every synthesis of the dub goes through `text_to_speech`, which first calls
        // `update_model(SrtModel)`: the first call switches the model, and the later
        // calls with the same name change nothing (`TtsLogic.SameNameLoadsOnce`).
        var _ := runtime.UpdateModel(SrtModel);
      }
      var outcome := SrtToDub(Tools(synth, ffmpeg, librosa, useFfmpeg), voiceName, entries, folder, dubSavePath, fs);
      job := Some(SrtJob(dubSavePath, folder, entries, outcome));
    }
  }
}
