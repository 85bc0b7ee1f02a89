/** The text-to-speech front end of `tts_logic.py`: the current-model switch, the
    validation of uploaded voice packs (deleting rejected files), the cleanup of the
    save path, and the choice of the voice argument. Model loading and synthesis are
    outside the model; the runtime records which model paths were loaded and the
    arguments synthesis was called with. */
module TtsLogic {
  import opened Wrappers
  import opened Text
  import opened Paths

  // ---------------------------------------------------------------------------
  // Current model (`update_model`)
  // ---------------------------------------------------------------------------

  /** The half-precision model, which lives in its own folder. */
  const HalfModel := "kokoro-v0_19-half.pth"

  /** Where `update_model` loads a model from. */
  function ModelPath(name: string): string
  {
    if name == HalfModel then Join("./KOKORO/fp16", name) else Join("./KOKORO", name)
  }

  /** A model name without '/' is loaded from `./KOKORO/fp16/` when it is the half
      model and from `./KOKORO/` otherwise, and the file loaded has that name. */
  lemma ModelPathSpec(name: string)
    requires '/' !in name
    ensures ModelPath(name) == (if name == HalfModel then "./KOKORO/fp16/" else "./KOKORO/") + name
    ensures Basename(ModelPath(name)) == name
  {
    var dir := if name == HalfModel then "./KOKORO/fp16" else "./KOKORO";
    ModelDirs(dir);
    assert ModelPath(name) == Join(dir, name);
    JoinPlain(dir, name);
    assert dir + "/" == if name == HalfModel then "./KOKORO/fp16/" else "./KOKORO/";
  }

  lemma ModelDirs(dir: string)
    requires dir == "./KOKORO/fp16" || dir == "./KOKORO"
    ensures dir != "" && !EndsWith(dir, "/")
  {
  }

  /** A plain name joined onto a folder that does not end in '/'. */
  lemma JoinPlain(dir: string, name: string)
    requires dir != "" && !EndsWith(dir, "/") && '/' !in name
    ensures Join(dir, name) == dir + "/" + name
    ensures Basename(Join(dir, name)) == name
  {
    assert !StartsWith(name, "/") by {
      if |name| >= 1 { assert name[0] in name; }
    }
    JoinRelative(dir, name);
    BasenameOfJoin(dir, name);
  }

  /** The model paths loaded by `update_model` on each name of `names` in turn,
      starting with `current` as the current model. */
  function Loads(current: Option<string>, names: seq<string>): seq<string>
    decreases |names|
  {
    if names == [] then []
    else if current == Some(names[0]) then Loads(current, names[1..])
    else [ModelPath(names[0])] + Loads(Some(names[0]), names[1..])
  }

  /** The current model after `update_model` on each name of `names` in turn. */
  function After(current: Option<string>, names: seq<string>): (r: Option<string>)
    ensures names != [] ==> r == Some(names[|names| - 1])
    ensures names == [] ==> r == current
    decreases |names|
  {
    if names == [] then current else After(Some(names[0]), names[1..])
  }

  /** The name current before the `k`-th call. */
  function CurrentBefore(current: Option<string>, names: seq<string>, k: nat): Option<string>
    requires k <= |names|
  {
    if k == 0 then current else Some(names[k - 1])
  }

  /** The number of calls whose name differs from the model current before them. */
  function Changes(current: Option<string>, names: seq<string>): nat
    decreases |names|
  {
    if names == [] then 0
    else
      var k := |names| - 1;
      Changes(current, names[..k]) + (if CurrentBefore(current, names, k) == Some(names[k]) then 0 else 1)
  }

  /** `Loads` splits at any point into the loads before and the loads after it. */
  lemma {:induction false} LoadsAppend(current: Option<string>, a: seq<string>, b: seq<string>)
    ensures Loads(current, a + b) == Loads(current, a) + Loads(After(current, a), b)
    decreases |a|
  {
    if a != [] {
      assert (a + b)[1..] == a[1..] + b;
      assert (a + b)[0] == a[0];
      var next := if current == Some(a[0]) then current else Some(a[0]);
      assert next == Some(a[0]);
      LoadsAppend(next, a[1..], b);
    } else {
      assert a + b == b;
    }
  }

  /** A model is loaded exactly once per call whose name differs from the current one. */
  lemma {:induction false} LoadCount(current: Option<string>, names: seq<string>)
    ensures |Loads(current, names)| == Changes(current, names)
    decreases |names|
  {
    if names != [] {
      var n := |names|;
      var prefix := names[..n - 1];
      LoadCount(current, prefix);
      assert names == prefix + [names[n - 1]];
      LoadsAppend(current, prefix, [names[n - 1]]);
      assert CurrentBefore(current, names, n - 1) == After(current, prefix);
      assert [names[n - 1]][1..] == [];
    }
  }

  /** Asking for the same model twice in a row loads it at most once: the second call
      is a no-op. */
  lemma RepeatLoadsOnce(current: Option<string>, names: seq<string>, name: string)
    ensures Loads(current, names + [name, name]) == Loads(current, names + [name])
    ensures After(current, names + [name, name]) == After(current, names + [name])
  {
    LoadsAppend(current, names + [name], [name]);
    assert names + [name, name] == (names + [name]) + [name];
    assert [name][1..] == [];
  }

  /** Any number (at least one) of calls with the same name loads as one call does:
      the first switches, the rest are no-ops, and the name ends up current. */
  lemma {:induction false} SameNameLoadsOnce(current: Option<string>, names: seq<string>, name: string)
    requires names != [] && forall k :: 0 <= k < |names| ==> names[k] == name
    ensures Loads(current, names) == Loads(current, [name])
    ensures After(current, names) == Some(name)
  {
    assert [name][1..] == [];
    NoLoadWhenCurrent(names[1..], name);
  }

  /** Calls naming the current model load nothing. */
  lemma {:induction false} NoLoadWhenCurrent(names: seq<string>, name: string)
    requires forall k :: 0 <= k < |names| ==> names[k] == name
    ensures Loads(Some(name), names) == []
    decreases |names|
  {
    if names != [] {
      NoLoadWhenCurrent(names[1..], name);
    }
  }

  // ---------------------------------------------------------------------------
  // Voice-pack validation (`manage_files`)
  // ---------------------------------------------------------------------------

  /** The largest voice pack accepted, in bytes. */
  const MaxVoicePackBytes := 5 * 1024 * 1024

  /** The test `manage_files` applies: a non-empty path to an existing file whose
      extension is `.pt` and whose size is at most 5 MiB. */
  predicate ValidVoicePack(files: map<string, nat>, path: string)
  {
    path != "" && path in files && Ext(path) == ".pt" && files[path] <= MaxVoicePackBytes
  }

  /** The files after `manage_files(path)`: an existing file that fails the test is
      deleted; otherwise nothing changes. */
  function AfterManage(files: map<string, nat>, path: string): map<string, nat>
  {
    if path != "" && path in files && !ValidVoicePack(files, path) then files - {path} else files
  }

  /** The extension test is the suffix test `.pt` on a last component with something
      before the dot other than dots. */
  lemma ValidVoicePackSuffix(files: map<string, nat>, path: string)
    ensures ValidVoicePack(files, path) <==>
      path in files && files[path] <= MaxVoicePackBytes
      && EndsWith(path, ".pt") && HasNonDot(path, RFind(path, '/') + 1, |path| - 3)
  {
    ExtIs(path, ".pt");
  }

  /** Validation decides once: after it, an accepted file is still there and accepted,
      a rejected one is gone, and validating again changes nothing. */
  lemma ManageSettles(files: map<string, nat>, path: string)
    ensures ValidVoicePack(AfterManage(files, path), path) == ValidVoicePack(files, path)
    ensures path in AfterManage(files, path) <==> path in files && (path == "" || ValidVoicePack(files, path))
    ensures AfterManage(AfterManage(files, path), path) == AfterManage(files, path)
    ensures forall p :: p != path ==> (p in AfterManage(files, path) <==> p in files)
  {
  }

  /** How a custom voice pack reaches `text_to_speech`. */
  datatype VoicePackArg =
    | NoPack                   // None
    | Upload(name: string)     // an uploaded file object, identified by its `.name`
    | PathString(s: string)    // a path string, as the voice mixer passes one
    | OtherObject              // anything else

  /** The path `text_to_speech` then checks, if any. */
  function VoicepackPath(arg: VoicePackArg): Option<string>
  {
    match arg
    case NoPack => None
    case Upload(name) => Some(name)
    case PathString(s) => if s == "" then None else Some(s)
    case OtherObject => None
  }

  // ---------------------------------------------------------------------------
  // Save-path cleanup (`tts_maker`)
  // ---------------------------------------------------------------------------

  /** `save_path.replace('\n', '').replace('\r', '')` */
  function SanitizeSavePath(p: string): string
  {
    Replace(Replace(p, "\n", ""), "\r", "")
  }

  /** The path with every '\n' and '\r' left out and nothing else changed. */
  function DropLineBreaks(p: string): (r: string)
    decreases |p|
  {
    if p == [] then []
    else (if p[0] == '\n' || p[0] == '\r' then [] else [p[0]]) + DropLineBreaks(p[1..])
  }

  lemma {:induction false} DropCharReplace(s: string, c: char)
    ensures Replace(s, [c], "") == (if s == [] then [] else (if s[0] == c then [] else [s[0]]) + Replace(s[1..], [c], ""))
  {
    if s != [] {
      assert s[..1] == [s[0]];
    }
  }

  lemma {:induction false} DropLineBreaksSplit(a: string, b: string)
    ensures DropLineBreaks(a + b) == DropLineBreaks(a) + DropLineBreaks(b)
    decreases |a|
  {
    if a != [] {
      assert (a + b)[1..] == a[1..] + b;
      DropLineBreaksSplit(a[1..], b);
    } else {
      assert a + b == b;
    }
  }

  lemma {:induction false} DropCrOfNoNewline(s: string)
    ensures Replace(Replace(s, "\n", ""), "\r", "") == DropLineBreaks(s)
    decreases |s|
  {
    if s != [] {
      DropCharReplace(s, '\n');
      DropCrOfNoNewline(s[1..]);
      var head: string := if s[0] == '\n' then [] else [s[0]];
      var rest := Replace(s[1..], "\n", "");
      assert Replace(s, "\n", "") == head + rest;
      DropCrAppend(head, rest);
    } else {
      assert Replace(s, "\n", "") == [];
    }
  }

  lemma DropCrAppend(head: string, rest: string)
    requires |head| <= 1 && (head != [] ==> head[0] != '\n')
    ensures Replace(head + rest, "\r", "") == Replace(head, "\r", "") + Replace(rest, "\r", "")
  {
    if head != [] {
      DropCharReplace(head + rest, '\r');
      assert (head + rest)[1..] == rest;
      DropCharReplace(head, '\r');
      assert head[1..] == [];
      assert Replace([], "\r", "") == [];
    } else {
      assert head + rest == rest;
      assert Replace([], "\r", "") == [];
    }
  }

  /** The cleanup removes exactly the line breaks: it equals `DropLineBreaks`, leaves
      neither '\n' nor '\r', keeps every other character in order, and is idempotent. */
  lemma SanitizeSpec(p: string)
    ensures SanitizeSavePath(p) == DropLineBreaks(p)
    ensures '\n' !in SanitizeSavePath(p) && '\r' !in SanitizeSavePath(p)
    ensures forall c :: c != '\n' && c != '\r' ==> (c in SanitizeSavePath(p) <==> c in p)
    ensures SanitizeSavePath(SanitizeSavePath(p)) == SanitizeSavePath(p)
  {
    DropCrOfNoNewline(p);
    DropLineBreaksChars(p);
    DropCrOfNoNewline(DropLineBreaks(p));
    DropLineBreaksChars(DropLineBreaks(p));
    DropLineBreaksIdle(DropLineBreaks(p));
  }

  lemma {:induction false} DropLineBreaksChars(p: string)
    ensures '\n' !in DropLineBreaks(p) && '\r' !in DropLineBreaks(p)
    ensures forall c :: c != '\n' && c != '\r' ==> (c in DropLineBreaks(p) <==> c in p)
    decreases |p|
  {
    if p != [] {
      DropLineBreaksChars(p[1..]);
      assert p == [p[0]] + p[1..];
    }
  }

  lemma {:induction false} DropLineBreaksIdle(p: string)
    requires '\n' !in p && '\r' !in p
    ensures DropLineBreaks(p) == p
    decreases |p|
  {
    if p != [] {
      assert p[0] in p;
      assert forall c :: c in p[1..] ==> c in p;
      DropLineBreaksIdle(p[1..]);
    }
  }

  // ---------------------------------------------------------------------------
  // The runtime state and `text_to_speech`
  // ---------------------------------------------------------------------------

  /** Python's `int(x)` on a float: truncation toward zero. */
  function Truncate(x: real): (k: int)
    ensures 0.0 <= x ==> k as real <= x < k as real + 1.0
    ensures x < 0.0 ==> k as real - 1.0 < x <= k as real
  {
    if x >= 0.0 then x.Floor else -((-x).Floor)
  }

  /** `keep_silence` of `text_to_speech` and `podcast_maker`: a zero minimum silence
      (in seconds) falls back to 0.05 s, and the value is turned into whole ms. */
  function KeepSilence(minimumSilence: real): (ms: int)
    ensures minimumSilence == 0.0 ==> ms == 50
    ensures minimumSilence > 0.0 ==> 0 <= ms && ms as real <= minimumSilence * 1000.0 < ms as real + 1.0
    ensures minimumSilence < 0.0 ==> ms <= 0 && ms as real - 1.0 < minimumSilence * 1000.0 <= ms as real
  {
    if minimumSilence == 0.0 then Truncate(0.05 * 1000.0) else Truncate(minimumSilence * 1000.0)
  }

  /** The defaults: `text_to_speech`'s 0.20 s keeps 200 ms, and `podcast_maker`'s 50
      (read as seconds like the other) keeps 50000 ms. */
  lemma KeepSilenceDefaults()
    ensures KeepSilence(0.20) == 200 && KeepSilence(50.0) == 50000
  {
  }

  /** What `tts_maker` receives, in its argument order. */
  datatype TtsCall = TtsCall(text: string, voice: string, speed: real, trim: real,
                             padBetween: real, savePath: string, removeSilence: bool,
                             keepSilenceMs: int)

  /** What `podcast` receives besides the model and the device. */
  datatype PodcastCall = PodcastCall(text: string, removeSilence: bool, minimumSilenceMs: int,
                                     speed: real)

  /** The state `tts_logic.py` works on: the current model (`config.CURRENT_MODEL`),
      the model paths loaded so far, and the files on disk with their sizes. */
  class Runtime {
    var currentModel: Option<string>
    var loaded: seq<string>
    var files: map<string, nat>

    /** At start-up no model is current and nothing was loaded. */
    constructor(files0: map<string, nat>)
      ensures currentModel == None && loaded == [] && files == files0
    {
      currentModel := None;
      loaded := [];
      files := files0;
    }

    /** `update_model`: a no-op with message "Model already set to ..." when the name
        is the current model; otherwise the model is loaded and becomes current. */
    method UpdateModel(name: string) returns (message: string)
      modifies this
      ensures old(currentModel) == Some(name) ==>
        message == "Model already set to " + name && loaded == old(loaded)
      ensures old(currentModel) != Some(name) ==>
        message == "Model updated to " + name && loaded == old(loaded) + [ModelPath(name)]
      ensures currentModel == Some(name) && files == old(files)
      ensures loaded == old(loaded) + Loads(old(currentModel), [name])
    {
      if currentModel == Some(name) {
        message := "Model already set to " + name;
        return;
      }
      var modelPath := Join("./KOKORO", name);
      if name == HalfModel {
        modelPath := Join("./KOKORO/fp16", name);
      }
      loaded := loaded + [modelPath];
      currentModel := Some(name);
      message := "Model updated to " + name;
    }

    /** `manage_files`: accept a valid voice pack; delete an existing file that fails
        the test; leave a missing path alone. */
    method ManageFiles(path: string) returns (ok: bool)
      modifies this
      ensures ok == ValidVoicePack(old(files), path)
      ensures files == AfterManage(old(files), path)
      ensures currentModel == old(currentModel) && loaded == old(loaded)
    {
      if path != "" && path in files {
        var extension := Ext(path);
        var size := files[path];
        if extension == ".pt" && size <= 5 * 1024 * 1024 {
          return true;
        } else {
          files := files - {path};
          return false;
        }
      }
      return false;
    }

    /** The voice and the file handling of `text_to_speech`: the model is switched, a
        custom voice pack replaces `voiceName` only when `manage_files` accepts it,
        and the synthesiser is called with the cleaned save path `saveAt` names. */
    method TextToSpeech(text: string, saveAt: string, modelName: string := "kokoro-v0_19.pth",
                        voiceName: string := "af_bella", speed: real := 1.0,
                        padBetweenSegments: real := 0.0, removeSilence: bool := true,
                        minimumSilence: real := 0.20, customVoicepack: VoicePackArg := NoPack,
                        trim: real := 0.0)
      returns (call: TtsCall)
      modifies this
      ensures currentModel == Some(modelName)
      ensures loaded == old(loaded) + Loads(old(currentModel), [modelName])
      ensures VoicepackPath(customVoicepack).Some? ==>
        files == AfterManage(old(files), VoicepackPath(customVoicepack).value)
        && call.voice == (if ValidVoicePack(old(files), VoicepackPath(customVoicepack).value)
                          then VoicepackPath(customVoicepack).value else voiceName)
      ensures VoicepackPath(customVoicepack).None? ==> files == old(files) && call.voice == voiceName
      ensures call.text == text && call.speed == speed && call.savePath == SanitizeSavePath(saveAt)
      ensures call.trim == trim && call.padBetween == padBetweenSegments
      ensures call.removeSilence == removeSilence && call.keepSilenceMs == KeepSilence(minimumSilence)
    {
      var _ := UpdateModel(modelName);
      var keepSilence := KeepSilence(minimumSilence);
      var finalVoiceArg := voiceName;
      var voicepackPath: Option<string> := None;
      match customVoicepack {
        case NoPack =>
        case Upload(name) => voicepackPath := Some(name);
        case PathString(s) => if s != "" { voicepackPath := Some(s); }
        case OtherObject =>
      }
      if voicepackPath.Some? && voicepackPath.value != "" {
        var ok := ManageFiles(voicepackPath.value);
        if ok {
          finalVoiceArg := voicepackPath.value;
        }
      }
      call := TtsCall(text, finalVoiceArg, speed, trim, padBetweenSegments,
                      SanitizeSavePath(saveAt), removeSilence, keepSilence);
    }

    /** `podcast_maker`: the model is switched, and `podcast` gets the text, the flag,
        the minimum silence in ms (0 falls back to 0.05 s) and the speed. */
    method PodcastMaker(text: string, removeSilence: bool := false, minimumSilence: real := 50.0,
                        speed: real := 0.9, modelName: string := "kokoro-v0_19.pth")
      returns (call: PodcastCall)
      modifies this
      ensures currentModel == Some(modelName) && files == old(files)
      ensures loaded == old(loaded) + Loads(old(currentModel), [modelName])
      ensures call.text == text && call.removeSilence == removeSilence && call.speed == speed
      ensures call.minimumSilenceMs == KeepSilence(minimumSilence)
    {
      var _ := UpdateModel(modelName);
      var keepSilence := KeepSilence(minimumSilence);
      call := PodcastCall(text, removeSilence, keepSilence, speed);
    }
  }
}
