/** Turning a narration into a video: the audio track is laid over a still image
    or a looped video clip by one ffmpeg invocation.  The model covers the
    duration formatting used in the report and the construction of the ffmpeg
    argument list; ffmpeg and ffprobe themselves are oracles. */
module VideoLogic {
  import opened Wrappers
  import opened Text
  import opened Paths

  // ---- format_duration_hhmmss ----------------------------------------------

  /** What `format_duration_hhmmss` may be handed: nothing, something that is not
      a number, or a number of whole seconds (already rounded by the caller). */
  datatype DurationInput = NoValue | NotNumeric | Seconds(total: int)

  /** `divmod(t, 3600)` followed by `divmod(remainder, 60)`. */
  function Clock(t: nat): (r: (nat, nat, nat))
    ensures 3600 * r.0 + 60 * r.1 + r.2 == t
    ensures r.1 < 60 && r.2 < 60
  {
    (t / 3600, (t % 3600) / 60, (t % 3600) % 60)
  }

  /** "HH:MM:SS" when there is at least one hour, else "MM:SS"; every field
      is padded with zeros to two digits.  Anything but a non-negative number is "N/A". */
  function FormatDurationHhmmss(d: DurationInput): (r: string)
    ensures r == "N/A" <==> !(d.Seconds? && d.total >= 0)
  {
    if !d.Seconds? || d.total < 0 then "N/A"
    else
      var fields := Fields(Clock(d.total));
      assert JoinWith(fields, ':')[0] == fields[0][0] && IsDigit(fields[0][0]);
      JoinWith(fields, ':')
  }

  /** The printed fields: hours only when there is at least one. */
  function Fields(c: (nat, nat, nat)): (r: seq<string>)
    ensures |r| >= 2 && forall k :: 0 <= k < |r| ==> AllDigits(r[k]) && |r[k]| >= 2
  {
    var h, m, s := ZeroPad(c.0, 2), ZeroPad(c.1, 2), ZeroPad(c.2, 2);
    DigitFields([h, m, s]);
    DigitFields([m, s]);
    if c.0 > 0 then [h, m, s] else [m, s]
  }

  lemma DigitFields(r: seq<string>)
    requires |r| <= 3
    requires |r| > 0 ==> AllDigits(r[0]) && |r[0]| >= 2
    requires |r| > 1 ==> AllDigits(r[1]) && |r[1]| >= 2
    requires |r| > 2 ==> AllDigits(r[2]) && |r[2]| >= 2
    ensures forall k :: 0 <= k < |r| ==> AllDigits(r[k]) && |r[k]| >= 2
  {
  }

  /** Reads a formatted duration back: two or three ':'-separated digit fields. */
  function ParseDuration(s: string): Option<nat>
  {
    FieldsValue(Split(s, ':'))
  }

  function FieldsValue(parts: seq<string>): Option<nat>
  {
    if |parts| == 3 && AllDigits(parts[0]) && AllDigits(parts[1]) && AllDigits(parts[2]) then
      Some(3600 * DigitsValue(parts[0]) + 60 * DigitsValue(parts[1]) + DigitsValue(parts[2]))
    else if |parts| == 2 && AllDigits(parts[0]) && AllDigits(parts[1]) then
      Some(60 * DigitsValue(parts[0]) + DigitsValue(parts[1]))
    else None
  }

  lemma HoursFields(h: nat, m: nat, s: nat)
    ensures FieldsValue([ZeroPad(h, 2), ZeroPad(m, 2), ZeroPad(s, 2)]) == Some(3600 * h + 60 * m + s)
  {
    ThreeFields(ZeroPad(h, 2), ZeroPad(m, 2), ZeroPad(s, 2), h, m, s);
  }

  lemma MinutesFields(m: nat, s: nat)
    ensures FieldsValue([ZeroPad(m, 2), ZeroPad(s, 2)]) == Some(60 * m + s)
  {
    TwoFields(ZeroPad(m, 2), ZeroPad(s, 2), m, s);
  }

  lemma ThreeFields(a: string, b: string, c: string, h: nat, m: nat, s: nat)
    requires AllDigits(a) && AllDigits(b) && AllDigits(c)
    requires DigitsValue(a) == h && DigitsValue(b) == m && DigitsValue(c) == s
    ensures FieldsValue([a, b, c]) == Some(3600 * h + 60 * m + s)
  {
    var parts := [a, b, c];
    assert parts[0] == a && parts[1] == b && parts[2] == c;
  }

  lemma TwoFields(a: string, b: string, m: nat, s: nat)
    requires AllDigits(a) && AllDigits(b)
    requires DigitsValue(a) == m && DigitsValue(b) == s
    ensures FieldsValue([a, b]) == Some(60 * m + s)
  {
    var parts := [a, b];
    assert parts[0] == a && parts[1] == b;
  }

  /** The fields of a formatted duration, as `":".split` sees them. */
  lemma FieldsOfDuration(t: nat)
    ensures Split(FormatDurationHhmmss(Seconds(t)), ':') == Fields(Clock(t))
  {
    var fields := Fields(Clock(t));
    forall k | 0 <= k < |fields| ensures ':' !in fields[k] {
      assert AllDigits(fields[k]);
      assert forall j :: 0 <= j < |fields[k]| ==> fields[k][j] != ':';
    }
    SplitJoin(fields, ':');
  }

  /** The format is lossless: parsing the text gives the number of seconds back,
      and every input that is not a non-negative number gives text that does not parse. */
  lemma DurationRoundTrip(d: DurationInput)
    ensures ParseDuration(FormatDurationHhmmss(d)) ==
            if d.Seconds? && d.total >= 0 then Some(d.total as nat) else None
  {
    if d.Seconds? && d.total >= 0 {
      ParseFormatted(d.total);
    } else {
      assert FormatDurationHhmmss(d) == "N/A";
      UnavailableDoesNotParse();
    }
  }

  lemma ParseFormatted(t: nat)
    ensures ParseDuration(FormatDurationHhmmss(Seconds(t))) == Some(t)
  {
    var c := Clock(t);
    var text := FormatDurationHhmmss(Seconds(t));
    FieldsOfDuration(t);
    assert Split(text, ':') == Fields(c);
    if c.0 > 0 {
      HoursFields(c.0, c.1, c.2);
      assert Fields(c) == [ZeroPad(c.0, 2), ZeroPad(c.1, 2), ZeroPad(c.2, 2)];
    } else {
      MinutesFields(c.1, c.2);
      assert Fields(c) == [ZeroPad(c.1, 2), ZeroPad(c.2, 2)];
    }
  }

  lemma UnavailableDoesNotParse()
    ensures ParseDuration("N/A") == None
  {
    assert ':' !in "N/A";
    SplitNoSep("N/A", ':');
  }

  /** Three fields exactly when there is at least one hour; minutes and seconds
      take exactly two digits and hours at least two. */
  lemma DurationShape(t: nat)
    ensures var parts := Split(FormatDurationHhmmss(Seconds(t)), ':');
            (|parts| == 3 <==> t >= 3600) && |parts| >= 2 &&
            |parts[|parts| - 1]| == 2 && |parts[|parts| - 2]| == 2 &&
            (|parts| == 3 ==> |parts[0]| >= 2)
  {
    var c := Clock(t);
    FieldsOfDuration(t);
    ZeroPadExact(c.1, 2);
    ZeroPadExact(c.2, 2);
  }

  // ---- probing durations ------------------------------------------------------

  /** ffmpeg and ffprobe live under ./ffmpeg, with ".exe" on Windows. */
  function FfmpegPath(isWindows: bool): string
  {
    if isWindows then Join("ffmpeg", "ffmpeg.exe") else Join("ffmpeg", "ffmpeg")
  }

  function FfprobePath(isWindows: bool): string
  {
    if isWindows then Join("ffmpeg", "ffprobe.exe") else Join("ffmpeg", "ffprobe")
  }

  function ProbeCommand(ffprobe: string, audio: string): seq<string>
  {
    [ffprobe, "-v", "error", "-show_entries", "format=duration",
     "-of", "default=noprint_wrappers=1:nokey=1", audio]
  }

  /** ffprobe, given its argument list, reports a duration in milliseconds or fails. */
  type Prober = seq<string> -> Option<nat>

  /** `get_audio_duration`: nothing for a missing file or a missing ffprobe,
      otherwise what ffprobe reports for exactly that file. */
  function GetAudioDuration(audio: string, isWindows: bool, present: set<string>, probe: Prober)
    : (r: Option<nat>)
    ensures (audio == "" || audio !in present || FfprobePath(isWindows) !in present) ==> r == None
    ensures audio != "" && audio in present && FfprobePath(isWindows) in present ==>
              r == probe(ProbeCommand(FfprobePath(isWindows), audio))
  {
    if audio == "" || audio !in present then None
    else if FfprobePath(isWindows) !in present then None
    else probe(ProbeCommand(FfprobePath(isWindows), audio))
  }

  /** Python's `round` of `ms / 1000`: to the nearest second, halves to even. */
  function RoundToSeconds(ms: nat): (s: nat)
    ensures ms - 500 <= 1000 * s <= ms + 500
    ensures 1000 * s == ms - 500 ==> s % 2 == 0
    ensures 1000 * s == ms + 500 ==> s % 2 == 0
  {
    var q := ms / 1000;
    var r := ms % 1000;
    if r > 500 || (r == 500 && q % 2 == 1) then q + 1 else q
  }

  /** What `format_duration_hhmmss(get_audio_duration(..))` receives. */
  function DurationOf(probed: Option<nat>): DurationInput
  {
    if probed.None? then NoValue else Seconds(RoundToSeconds(probed.value))
  }

  /** `f"{seconds:.3f}"` for a duration of `ms` milliseconds. */
  function SecondsText(ms: nat): string
  {
    NatToString(ms / 1000) + "." + ZeroPad(ms % 1000, 3)
  }

  /** The `-t` argument keeps the millisecond count exactly: whole seconds before
      the point, three digits after it. */
  lemma SecondsTextExact(ms: nat)
    ensures var parts := Split(SecondsText(ms), '.');
            |parts| == 2 && AllDigits(parts[0]) && AllDigits(parts[1]) && |parts[1]| == 3 &&
            1000 * DigitsValue(parts[0]) + DigitsValue(parts[1]) == ms
  {
    var a := NatToString(ms / 1000);
    var b := ZeroPad(ms % 1000, 3);
    ZeroPadExact(ms % 1000, 3);
    NatToStringValue(ms / 1000);
    forall k | 0 <= k < 2 ensures '.' !in [a, b][k] {
      assert AllDigits([a, b][k]);
      assert forall j :: 0 <= j < |[a, b][k]| ==> [a, b][k][j] != '.';
    }
    assert JoinWith([a, b], '.') == a + "." + b;
    SplitJoin([a, b], '.');
  }

  // ---- the ffmpeg argument list --------------------------------------------

  const ImageExtensions: seq<string> := [".png", ".jpg", ".jpeg", ".bmp", ".webp"]

  /** The cover is a still image when its lower-cased extension is one of the five. */
  predicate IsImageCover(cover: string)
  {
    Lower(Ext(cover)) in ImageExtensions
  }

  /** `p` ends with extension `e` in the sense of `splitext`: the suffix is `e` and
      the last path component has something other than dots before it. */
  predicate HasExtension(p: string, e: string)
  {
    EndsWith(p, e) && |e| <= |p| && HasNonDot(p, RFind(p, '/') + 1, |p| - |e|)
  }

  /** Lower-casing commutes with `splitext`: it moves no '.' and no '/'. */
  lemma ExtOfLower(p: string)
    ensures Ext(Lower(p)) == Lower(Ext(p))
  {
    var l := Lower(p);
    assert forall k :: 0 <= k < |p| ==> (l[k] == '.' <==> p[k] == '.');
    assert forall k :: 0 <= k < |p| ==> (l[k] == '/' <==> p[k] == '/');
    RFindLower(p, '.');
    RFindLower(p, '/');
    var s := RFind(p, '/') + 1;
    var d := RFind(p, '.');
    if d > RFind(p, '/') {
      assert HasNonDot(l, s, d) <==> HasNonDot(p, s, d) by {
        if HasNonDot(p, s, d) {
          var k :| s <= k < d && p[k] != '.';
          assert l[k] != '.';
        }
        if HasNonDot(l, s, d) {
          var k :| s <= k < d && l[k] != '.';
          assert p[k] != '.';
        }
      }
    }
    assert ExtIndex(l) == ExtIndex(p);
    assert Lower(p[ExtIndex(p)..]) == l[ExtIndex(p)..];
  }

  lemma RFindLower(p: string, c: char)
    requires c == '.' || c == '/'
    ensures RFind(Lower(p), c) == RFind(p, c)
  {
    var l := Lower(p);
    var i := RFind(p, c);
    assert forall k :: 0 <= k < |p| ==> (l[k] == c <==> p[k] == c);
    if i >= 0 {
      RFindAt(l, c, i);
    } else {
      RFindBefore(l, c, 0);
    }
  }

  /** A cover counts as an image exactly when its lower-cased name has one of the
      five image extensions. */
  lemma ImageCoverIff(cover: string)
    ensures IsImageCover(cover) <==>
            exists e :: e in ImageExtensions && HasExtension(Lower(cover), e)
  {
    ExtOfLower(cover);
    var l := Lower(cover);
    forall e | e in ImageExtensions
      ensures Ext(l) == e <==> HasExtension(l, e)
    {
      ImageExtensionShape(e);
      ExtIs(l, e);
    }
  }

  lemma ImageExtensionShape(e: string)
    requires e in ImageExtensions
    ensures |e| >= 1 && e[0] == '.' && '.' !in e[1..] && '/' !in e
  {
    assert e == ImageExtensions[0] || e == ImageExtensions[1] || e == ImageExtensions[2]
        || e == ImageExtensions[3] || e == ImageExtensions[4];
  }

  /** 1280x720 for the fast choice, 1920x1080 for anything else. */
  function Resolution(choice: string): (r: (nat, nat))
    ensures r == (1280, 720) <==> choice == "720p (Fast)"
    ensures choice != "720p (Fast)" ==> r == (1920, 1080)
  {
    if choice == "720p (Fast)" then (1280, 720) else (1920, 1080)
  }

  /** Scale the cover into the frame keeping its aspect ratio, pad with black. */
  function VideoFilter(size: (nat, nat)): string
  {
    var w := NatToString(size.0);
    var h := NatToString(size.1);
    "scale=" + w + ":" + h + ":force_original_aspect_ratio=decrease,pad=" + w + ":" + h
    + ":(ow-iw)/2:(oh-ih)/2:color=black,setsar=1"
  }

  function InputArgs(image: bool, cover: string, audio: string, frameRate: string): seq<string>
  {
    if image then ["-loop", "1", "-framerate", frameRate, "-i", cover, "-i", audio]
    else ["-stream_loop", "-1", "-i", cover, "-i", audio] + ["-map", "0:v:0", "-map", "1:a:0"]
  }

  function EncoderArgs(nvenc: bool, image: bool): seq<string>
  {
    if nvenc then
      ["-c:v", "h264_nvenc", "-preset", "p4", "-cq", "22", "-pix_fmt", "yuv420p"]
    else
      ["-c:v", "libx264"] + (if image then ["-tune", "stillimage"] else [])
      + ["-preset", "veryfast", "-crf", "23", "-pix_fmt", "yuv420p"]
  }

  /** An exact length when the probe gave a positive duration, else stop with the shorter input. */
  function LengthArgs(probed: Option<nat>): seq<string>
  {
    if probed.Some? && probed.value > 0 then ["-t", SecondsText(probed.value)] else ["-shortest"]
  }

  /** kokoro_videos/<audio file name without extension>.mp4 */
  function VideoPath(audio: string): string
  {
    Join("kokoro_videos", Root(Basename(audio)) + ".mp4")
  }

  /** The complete ffmpeg invocation. */
  function VideoCommand(ffmpeg: string, audio: string, cover: string, resolution: string,
                        encoder: string, frameRate: string, probed: Option<nat>): seq<string>
  {
    CommandFor(ffmpeg, audio, cover, IsImageCover(cover), VideoFilter(Resolution(resolution)),
               Contains(encoder, "nvenc"), frameRate, probed, VideoPath(audio))
  }

  /** The invocation once the cover kind, the filter, the encoder family and the
      output path are decided. */
  function CommandFor(ffmpeg: string, audio: string, cover: string, image: bool, filter: string,
                      nvenc: bool, frameRate: string, probed: Option<nat>, output: string): seq<string>
  {
    [ffmpeg, "-y"] + InputArgs(image, cover, audio, frameRate)
    + ["-vf", filter]
    + EncoderArgs(nvenc, image)
    + ["-c:a", "aac", "-b:a", "192k"] + LengthArgs(probed)
    + ["-r", frameRate, output]
  }

  /** The output lands directly in kokoro_videos under the audio's name with ".mp4". */
  lemma VideoPathSpec(audio: string)
    ensures VideoPath(audio) == "kokoro_videos/" + Root(Basename(audio)) + ".mp4"
    ensures Basename(VideoPath(audio)) == Root(Basename(audio)) + ".mp4"
  {
    var b := Basename(audio);
    RootHasNoSlash(b);
    VideoPathOf(Root(b));
  }

  lemma RootHasNoSlash(b: string)
    requires '/' !in b
    ensures '/' !in Root(b)
  {
    SplitExtParts(b);
    assert forall k :: 0 <= k < |Root(b)| ==> Root(b)[k] == b[k];
  }

  lemma VideoPathOf(stem: string)
    requires '/' !in stem
    ensures Join("kokoro_videos", stem + ".mp4") == "kokoro_videos/" + stem + ".mp4"
    ensures Basename(Join("kokoro_videos", stem + ".mp4")) == stem + ".mp4"
  {
    var name := stem + ".mp4";
    assert '/' !in ".mp4";
    assert '/' !in name;
    assert !StartsWith(name, "/") by { assert name[0] != '/'; }
    JoinRelative("kokoro_videos", name);
    assert !EndsWith("kokoro_videos", "/");
    BasenameOfJoin("kokoro_videos", name);
  }

  /** Both ends of the command: `ffmpeg -y` first, then `-r R <output>` last,
      preceded by `-t <seconds>` for a positive probed length and by `-shortest` otherwise. */
  lemma CommandEnds(ffmpeg: string, audio: string, cover: string, resolution: string,
                    encoder: string, frameRate: string, probed: Option<nat>)
    ensures var c := VideoCommand(ffmpeg, audio, cover, resolution, encoder, frameRate, probed);
            |c| >= 10 && c[..2] == [ffmpeg, "-y"] &&
            c[|c| - 3..] == ["-r", frameRate, VideoPath(audio)] &&
            (if probed.Some? && probed.value > 0
             then c[|c| - 5..|c| - 3] == ["-t", SecondsText(probed.value)]
             else c[|c| - 4] == "-shortest")
  {
    EndsFor(ffmpeg, audio, cover, IsImageCover(cover), VideoFilter(Resolution(resolution)),
            Contains(encoder, "nvenc"), frameRate, probed, VideoPath(audio));
  }

  lemma EndsFor(ffmpeg: string, audio: string, cover: string, image: bool, filter: string,
                nvenc: bool, frameRate: string, probed: Option<nat>,
                output: string)
    ensures var c := CommandFor(ffmpeg, audio, cover, image, filter, nvenc, frameRate, probed, output);
            |c| >= 10 && c[..2] == [ffmpeg, "-y"] &&
            c[|c| - 3..] == ["-r", frameRate, output] &&
            (if probed.Some? && probed.value > 0
             then c[|c| - 5..|c| - 3] == ["-t", SecondsText(probed.value)]
             else c[|c| - 4] == "-shortest")
  {
    var head := [ffmpeg, "-y"];
    var q1 := head + InputArgs(image, cover, audio, frameRate);
    var q2 := q1 + ["-vf", filter];
    var q3 := q2 + EncoderArgs(nvenc, image);
    var front := q3 + ["-c:a", "aac", "-b:a", "192k"];
    var len := LengthArgs(probed);
    var tail := ["-r", frameRate, output];
    ArgLengths(image, cover, audio, frameRate, nvenc);
    PrefixOfAppend(head, InputArgs(image, cover, audio, frameRate));
    PrefixOfAppend(q1, ["-vf", filter]);
    PrefixOfAppend(q2, EncoderArgs(nvenc, image));
    PrefixOfAppend(q3, ["-c:a", "aac", "-b:a", "192k"]);
    PrefixChain(front, q3, q2, q1, head);
    Slice3(front, len, tail);
    var c := front + len + tail;
    PrefixSlice(c, front, 0, 2);
  }

  /** The inputs follow `ffmpeg -y`: a looped still image at the frame rate, or a
      looped video whose picture and the audio's sound are mapped explicitly; then the filter. */
  lemma CommandInputs(ffmpeg: string, audio: string, cover: string, resolution: string,
                      encoder: string, frameRate: string, probed: Option<nat>)
    ensures var c := VideoCommand(ffmpeg, audio, cover, resolution, encoder, frameRate, probed);
            var k := if IsImageCover(cover) then 10 else 12;
            |c| >= k + 6 &&
            (IsImageCover(cover) ==>
               c[2..10] == ["-loop", "1", "-framerate", frameRate, "-i", cover, "-i", audio]) &&
            (!IsImageCover(cover) ==>
               c[2..12] == ["-stream_loop", "-1", "-i", cover, "-i", audio,
                            "-map", "0:v:0", "-map", "1:a:0"]) &&
            c[k..k + 2] == ["-vf", VideoFilter(Resolution(resolution))]
  {
    InputsFor(ffmpeg, audio, cover, IsImageCover(cover), VideoFilter(Resolution(resolution)),
              Contains(encoder, "nvenc"), frameRate, probed, VideoPath(audio));
  }

  lemma InputsFor(ffmpeg: string, audio: string, cover: string, image: bool, filter: string,
                  nvenc: bool, frameRate: string, probed: Option<nat>,
                  output: string)
    ensures var c := CommandFor(ffmpeg, audio, cover, image, filter, nvenc, frameRate, probed, output);
            var k := if image then 10 else 12;
            |c| >= k + 6 &&
            (image ==> c[2..10] == ["-loop", "1", "-framerate", frameRate, "-i", cover, "-i", audio]) &&
            (!image ==> c[2..12] == ["-stream_loop", "-1", "-i", cover, "-i", audio,
                                     "-map", "0:v:0", "-map", "1:a:0"]) &&
            c[k..k + 2] == ["-vf", filter]
  {
    var head := [ffmpeg, "-y"];
    var inputs := InputArgs(image, cover, audio, frameRate);
    var vf := ["-vf", filter];
    var front := head + inputs + vf;
    var p1 := front + EncoderArgs(nvenc, image);
    var p2 := p1 + ["-c:a", "aac", "-b:a", "192k"];
    var p3 := p2 + LengthArgs(probed);
    var c := p3 + ["-r", frameRate, output];
    PrefixOfAppend(front, EncoderArgs(nvenc, image));
    PrefixOfAppend(p1, ["-c:a", "aac", "-b:a", "192k"]);
    PrefixOfAppend(p2, LengthArgs(probed));
    PrefixOfAppend(p3, ["-r", frameRate, output]);
    PrefixChain(c, p3, p2, p1, front);
    Slice3(head, inputs, vf);
    var k := |head| + |inputs|;
    assert k == if image then 10 else 12;
    PrefixSlice(c, front, 2, k);
    PrefixSlice(c, front, k, k + 2);
  }

  /** The encoder block follows the filter: h264_nvenc with preset p4 for any
      choice mentioning nvenc, else libx264, tuned for still images only for an image cover. */
  lemma CommandEncoder(ffmpeg: string, audio: string, cover: string, resolution: string,
                       encoder: string, frameRate: string, probed: Option<nat>)
    ensures var c := VideoCommand(ffmpeg, audio, cover, resolution, encoder, frameRate, probed);
            var k := if IsImageCover(cover) then 12 else 14;
            |c| >= k + 4 &&
            (Contains(encoder, "nvenc") ==>
               c[k..k + 4] == ["-c:v", "h264_nvenc", "-preset", "p4"]) &&
            (!Contains(encoder, "nvenc") && IsImageCover(cover) ==>
               c[k..k + 4] == ["-c:v", "libx264", "-tune", "stillimage"]) &&
            (!Contains(encoder, "nvenc") && !IsImageCover(cover) ==>
               c[k..k + 4] == ["-c:v", "libx264", "-preset", "veryfast"])
  {
    EncoderFor(ffmpeg, audio, cover, IsImageCover(cover), VideoFilter(Resolution(resolution)),
               Contains(encoder, "nvenc"), frameRate, probed, VideoPath(audio));
  }

  lemma EncoderFor(ffmpeg: string, audio: string, cover: string, image: bool, filter: string,
                   nvenc: bool, frameRate: string, probed: Option<nat>,
                   output: string)
    ensures var c := CommandFor(ffmpeg, audio, cover, image, filter, nvenc, frameRate, probed, output);
            var k := if image then 12 else 14;
            |c| >= k + 4 &&
            (nvenc ==> c[k..k + 4] == ["-c:v", "h264_nvenc", "-preset", "p4"]) &&
            (!nvenc && image ==> c[k..k + 4] == ["-c:v", "libx264", "-tune", "stillimage"]) &&
            (!nvenc && !image ==> c[k..k + 4] == ["-c:v", "libx264", "-preset", "veryfast"])
  {
    var front := [ffmpeg, "-y"] + InputArgs(image, cover, audio, frameRate) + ["-vf", filter];
    var enc := EncoderArgs(nvenc, image);
    var p1 := front + enc;
    var p2 := p1 + ["-c:a", "aac", "-b:a", "192k"];
    var p3 := p2 + LengthArgs(probed);
    var c := p3 + ["-r", frameRate, output];
    PrefixOfAppend(p1, ["-c:a", "aac", "-b:a", "192k"]);
    PrefixOfAppend(p2, LengthArgs(probed));
    PrefixOfAppend(p3, ["-r", frameRate, output]);
    PrefixChain3(c, p3, p2, p1);
    var k := |front|;
    assert k == if image then 12 else 14;
    assert |enc| >= 4 && p1[k..k + 4] == enc[..4];
    PrefixSlice(c, p1, k, k + 4);
  }

  lemma ArgLengths(image: bool, cover: string, audio: string, frameRate: string, nvenc: bool)
    ensures |InputArgs(image, cover, audio, frameRate)| == if image then 8 else 10
    ensures |EncoderArgs(nvenc, image)| >= 8
  {
  }

  lemma AppendLast<T>(x: seq<T>, a: T, b: T, c: T)
    ensures x + [a, b] + [c] == x + [a, b, c]
  {
  }

  /** The three parts of a concatenation are its slices. */
  lemma Slice3<T>(a: seq<T>, b: seq<T>, c: seq<T>)
    ensures |a + b + c| == |a| + |b| + |c|
    ensures (a + b + c)[..|a|] == a
    ensures (a + b + c)[|a|..|a| + |b|] == b
    ensures (a + b + c)[|a| + |b|..] == c
  {
    var s := a + b + c;
    assert s[..|a|] == a;
    assert s[|a|..|a| + |b|] == b;
    assert s[|a| + |b|..] == c;
  }

  lemma PrefixOfAppend<T>(p: seq<T>, x: seq<T>)
    ensures (p + x)[..|p|] == p
  {
  }

  /** A slice inside a known prefix is a slice of the prefix. */
  lemma PrefixSlice<T>(c: seq<T>, p: seq<T>, i: nat, j: nat)
    requires |p| <= |c| && c[..|p|] == p && i <= j <= |p|
    ensures c[i..j] == p[i..j]
  {
    assert forall k :: i <= k < j ==> c[k] == c[..|p|][k];
  }

  lemma PrefixChain3<T>(c: seq<T>, p3: seq<T>, p2: seq<T>, p1: seq<T>)
    requires |p1| <= |p2| <= |p3| <= |c|
    requires c[..|p3|] == p3 && p3[..|p2|] == p2 && p2[..|p1|] == p1
    ensures c[..|p1|] == p1
  {
    assert forall k :: 0 <= k < |p1| ==> c[k] == p3[k] == p2[k] == p1[k];
  }

  lemma PrefixChain<T>(c: seq<T>, p3: seq<T>, p2: seq<T>, p1: seq<T>, p0: seq<T>)
    requires |p0| <= |p1| <= |p2| <= |p3| <= |c|
    requires c[..|p3|] == p3 && p3[..|p2|] == p2 && p2[..|p1|] == p1 && p1[..|p0|] == p0
    ensures c[..|p0|] == p0
  {
    PrefixChain3(c, p3, p2, p1);
    assert forall k :: 0 <= k < |p0| ==> c[k] == p1[k] == p0[k];
  }

  /** The command, built the way the source builds it: one `extend` at a time. */
  method BuildCommand(ffmpeg: string, audio: string, cover: string, resolution: string,
                      encoder: string, frameRate: string, probed: Option<nat>)
    returns (command: seq<string>)
    ensures command == VideoCommand(ffmpeg, audio, cover, resolution, encoder, frameRate, probed)
  {
    var image := IsImageCover(cover);
    var size := Resolution(resolution);
    var filter := VideoFilter(size);
    var nvenc := Contains(encoder, "nvenc");
    var output := VideoPath(audio);
    command := [ffmpeg, "-y"];
    if image {
      command := command + ["-loop", "1", "-framerate", frameRate, "-i", cover, "-i", audio];
    } else {
      command := command + ["-stream_loop", "-1", "-i", cover, "-i", audio];
      command := command + ["-map", "0:v:0", "-map", "1:a:0"];
    }
    assert command == [ffmpeg, "-y"] + InputArgs(image, cover, audio, frameRate);
    command := command + ["-vf", filter];
    var encoderParams;
    if nvenc {
      encoderParams := ["-c:v", "h264_nvenc", "-preset", "p4", "-cq", "22", "-pix_fmt", "yuv420p"];
    } else {
      var tune := if image then ["-tune", "stillimage"] else [];
      encoderParams := ["-c:v", "libx264"] + tune
                       + ["-preset", "veryfast", "-crf", "23", "-pix_fmt", "yuv420p"];
    }
    assert encoderParams == EncoderArgs(nvenc, image);
    command := command + encoderParams;
    command := command + ["-c:a", "aac", "-b:a", "192k"];
    var lengthParams;
    if probed.Some? && probed.value > 0 {
      lengthParams := ["-t", SecondsText(probed.value)];
    } else {
      lengthParams := ["-shortest"];
    }
    assert lengthParams == LengthArgs(probed);
    command := command + lengthParams;
    ghost var before := command;
    command := command + ["-r", frameRate];
    command := command + [output];
    AppendLast(before, "-r", frameRate, output);
    assert command == CommandFor(ffmpeg, audio, cover, image, filter, nvenc, frameRate, probed, output);
  }

  // ---- generate_video_from_media ---------------------------------------------

  /** How the ffmpeg process ends: it completes, exits with an error code, or
      something else goes wrong, with a description. */
  datatype RunStatus = Completed | ExitFailure | Crashed(reason: string)

  /** The pair the UI receives: the video path (if any) and a message. */
  datatype VideoReply = VideoReply(video: Option<string>, message: string)

  const NoFfmpegMessage: string := "\U{274C} Video Generation Error: ffmpeg.exe not found."
  const NoAudioMessage: string := "\U{274C} Video Generation Error: Audio file is missing."
  const NoCoverMessage: string := "\U{274C} Video Generation Error: Cover file is missing."
  const FfmpegFailedMessage: string :=
    "\U{274C} Video Generation Error: FFmpeg failed. Check console for details."

  /** `get_media_details`: name, size text and formatted duration, or three "N/A". */
  function GetMediaDetails(path: string, present: set<string>, sizeText: string,
                           isWindows: bool, probe: Prober): (r: (string, string, string))
    ensures (path == "" || path !in present) ==> r == ("N/A", "N/A", "N/A")
    ensures path != "" && path in present ==>
              r.0 == Basename(path) && r.1 == sizeText &&
              r.2 == FormatDurationHhmmss(DurationOf(GetAudioDuration(path, isWindows, present, probe)))
  {
    if path == "" || path !in present then ("N/A", "N/A", "N/A")
    else (Basename(path), sizeText,
          FormatDurationHhmmss(DurationOf(GetAudioDuration(path, isWindows, present, probe))))
  }

  /** The report shown after a successful run. */
  function InfoText(details: (string, string, string), resolution: string, encoder: string): string
  {
    "Generated File: " + details.0 + "\n"
    + "Resolution: " + Split(resolution, ' ')[0] + "\n"
    + "Size: " + details.1 + "\n"
    + "Duration: " + details.2 + "\n"
    + "Encoder: " + Strip(Split(encoder, '(')[0]) + "\n"
    + "---\n"
    + "Saved to 'kokoro_videos' folder."
  }

  /** `generate_video_from_media`.  `present` is the set of paths that exist,
      `probe` stands for ffprobe, `ffmpegRun` for the ffmpeg process, and `sizeText`
      for the size string of the finished file.  The argument list is returned
      alongside the reply; it is empty when nothing was run. */
  method GenerateVideoFromMedia(audio: string, cover: string, resolution: string,
                                encoder: string, frameRate: string, isWindows: bool,
                                present: set<string>, probe: Prober,
                                ffmpegRun: seq<string> -> RunStatus, sizeText: string)
    returns (reply: VideoReply, command: seq<string>)
    ensures FfmpegPath(isWindows) !in present ==>
              reply == VideoReply(None, NoFfmpegMessage) && command == []
    ensures FfmpegPath(isWindows) in present && (audio == "" || audio !in present) ==>
              reply == VideoReply(None, NoAudioMessage) && command == []
    ensures FfmpegPath(isWindows) in present && audio != "" && audio in present &&
            (cover == "" || cover !in present) ==>
              reply == VideoReply(None, NoCoverMessage) && command == []
    ensures FfmpegPath(isWindows) in present && audio != "" && audio in present &&
            cover != "" && cover in present ==>
              command == VideoCommand(FfmpegPath(isWindows), audio, cover, resolution, encoder,
                                      frameRate, GetAudioDuration(audio, isWindows, present, probe)) &&
              reply == match ffmpegRun(command)
                         case Completed =>
                           VideoReply(Some(VideoPath(audio)),
                             InfoText(GetMediaDetails(VideoPath(audio), present + {VideoPath(audio)},
                                                      sizeText, isWindows, probe),
                                      resolution, encoder))
                         case ExitFailure => VideoReply(None, FfmpegFailedMessage)
                         case Crashed(e) =>
                           VideoReply(None, "\U{274C} An unexpected error occurred: " + e)
    ensures reply.video.Some? ==> reply.video.value == VideoPath(audio) && command != []
  {
    var ffmpeg := FfmpegPath(isWindows);
    command := [];
    if ffmpeg !in present {
      return VideoReply(None, NoFfmpegMessage), command;
    }
    if audio == "" || audio !in present {
      return VideoReply(None, NoAudioMessage), command;
    }
    if cover == "" || cover !in present {
      return VideoReply(None, NoCoverMessage), command;
    }
    var probed := GetAudioDuration(audio, isWindows, present, probe);
    command := BuildCommand(ffmpeg, audio, cover, resolution, encoder, frameRate, probed);
    CommandEnds(ffmpeg, audio, cover, resolution, encoder, frameRate, probed);
    var output := VideoPath(audio);
    match ffmpegRun(command)
    case Completed =>
      var details := GetMediaDetails(output, present + {output}, sizeText, isWindows, probe);
      reply := VideoReply(Some(output), InfoText(details, resolution, encoder));
    case ExitFailure =>
      reply := VideoReply(None, FfmpegFailedMessage);
    case Crashed(e) =>
      reply := VideoReply(None, "\U{274C} An unexpected error occurred: " + e);
  }
}
