/** Fetching the model and the voice packs from the Hugging Face hub into ./KOKORO,
    copying a file only when its content changed, and the two voice-folder
    utilities: mixing every pair of voices and listing the voice names.
    The hub (listing and download), SHA-256 and the tensors are abstract. */
module DownloadModel {
  import opened Wrappers
  import opened Text
  import opened Paths
  import TtsLogic

  type Bytes = seq<bv8>

  /** The files on disk and their contents. */
  type Disk = map<string, Bytes>

  /** The hex digest of a content. */
  type Hasher = Bytes -> string

  /** `hf_hub_download(repo, filename)`: the cache path the file was stored at and
      its content, or None when the download raises. */
  type Fetcher = (string, string) -> Option<(string, Bytes)>

  const RepoId: string := "hexgrad/Kokoro-82M"
  const MirrorRepoId: string := "Remsky/kokoro-82m-mirror"
  const KokoroDir: string := "./KOKORO"
  const KokoroFile: string := "kokoro-v0_19.pth"
  const Fp16File: string := "fp16/kokoro-v0_19-half.pth"

  function VoicesDir(): string { Join(KokoroDir, "voices") }
  function Fp16Dir(): string { Join(KokoroDir, "fp16") }

  // ---- get_file_hash and download_files -------------------------------------

  /** `get_file_hash`: the digest of the file, or None when it does not exist. */
  function GetFileHash(disk: Disk, path: string, sha: Hasher): (r: Option<string>)
    ensures r.None? <==> path !in disk
    ensures path in disk ==> r == Some(sha(disk[path]))
  {
    if path !in disk then None else Some(sha(disk[path]))
  }

  /** What the loop reports for one filename. */
  datatype Outcome = Updated | UpToDate | Error

  /** Where a repository file lands: its base name inside the destination folder. */
  function Destination(dir: string, filename: string): string
  {
    Join(dir, Basename(filename))
  }

  /** One iteration of `download_files`: download into the cache, then copy to the
      destination.  A failed download is caught, reported, and changes nothing. */
  function DownloadOne(disk: Disk, repo: string, filename: string, dir: string,
                       fetch: Fetcher, sha: Hasher): (r: (Disk, Outcome))
    ensures r.1 == Error <==> fetch(repo, filename).None?
    ensures r.1 == Error ==> r.0 == disk
  {
    match fetch(repo, filename)
    case None => (disk, Error)
    case Some(download) => CopyIfChanged(disk, download.0, download.1, Destination(dir, filename), sha)
  }

  /** After the download put `content` at `cached`: copy it to `dest` when the
      cached digest differs from the destination's. */
  function CopyIfChanged(disk: Disk, cached: string, content: Bytes, dest: string, sha: Hasher)
    : (r: (Disk, Outcome))
    ensures r.1 != Error
    ensures r.1 == Updated <==> GetFileHash(disk[cached := content], dest, sha) != Some(sha(content))
  {
    var before := disk[cached := content];
    if GetFileHash(before, cached, sha) != GetFileHash(before, dest, sha)
    then (before[dest := content], Updated)
    else (before, UpToDate)
  }

  /** The copy decision: a destination that does not exist is always written,
      one with the same content never, and afterwards the destination holds a
      file with the downloaded digest.  Paths other than the cache entry and the
      destination are untouched. */
  lemma CopyDecision(disk: Disk, cached: string, content: Bytes, dest: string, sha: Hasher)
    requires cached != dest
    ensures var r := CopyIfChanged(disk, cached, content, dest, sha);
            (dest !in disk ==> r.1 == Updated) &&
            (dest in disk && disk[dest] == content ==> r.1 == UpToDate) &&
            (dest in r.0 && sha(r.0[dest]) == sha(content)) &&
            (forall p :: p != dest && p != cached ==>
               (p in r.0 <==> p in disk) && (p in disk ==> r.0[p] == disk[p]))
  {
    var before := disk[cached := content];
    assert GetFileHash(before, cached, sha) == Some(sha(content));
  }

  /** `download_files` applied to the first filenames, in order. */
  function DownloadAll(disk: Disk, repo: string, filenames: seq<string>, dir: string,
                       fetch: Fetcher, sha: Hasher): (r: (Disk, seq<Outcome>))
    ensures |r.1| == |filenames|
    decreases |filenames|
  {
    if filenames == [] then (disk, [])
    else
      var prev := DownloadAll(disk, repo, filenames[..|filenames| - 1], dir, fetch, sha);
      var step := DownloadOne(prev.0, repo, filenames[|filenames| - 1], dir, fetch, sha);
      (step.0, prev.1 + [step.1])
  }

  /** An error on one filename does not stop the others: every filename gets its
      own outcome, and it is `Error` exactly when that filename's download failed. */
  lemma ErrorsAreIsolated(disk: Disk, repo: string, filenames: seq<string>,
                          dir: string, fetch: Fetcher, sha: Hasher)
    ensures var log := DownloadAll(disk, repo, filenames, dir, fetch, sha).1;
            forall i :: 0 <= i < |filenames| ==>
              (log[i] == Error <==> fetch(repo, filenames[i]).None?)
  {
    forall i | 0 <= i < |filenames|
      ensures var log := DownloadAll(disk, repo, filenames, dir, fetch, sha).1;
              log[i] == Error <==> fetch(repo, filenames[i]).None?
    {
      ErrorAt(disk, repo, filenames, dir, fetch, sha, i);
    }
  }

  lemma {:induction false} ErrorAt(disk: Disk, repo: string, filenames: seq<string>,
                                   dir: string, fetch: Fetcher, sha: Hasher, i: nat)
    requires i < |filenames|
    ensures var log := DownloadAll(disk, repo, filenames, dir, fetch, sha).1;
            log[i] == Error <==> fetch(repo, filenames[i]).None?
    decreases |filenames|
  {
    var n := |filenames| - 1;
    var prev := DownloadAll(disk, repo, filenames[..n], dir, fetch, sha);
    var step := DownloadOne(prev.0, repo, filenames[n], dir, fetch, sha);
    var log := DownloadAll(disk, repo, filenames, dir, fetch, sha).1;
    assert log == prev.1 + [step.1];
    if i < n {
      ErrorAt(disk, repo, filenames[..n], dir, fetch, sha, i);
      assert log[i] == prev.1[i];
      assert filenames[..n][i] == filenames[i];
    } else {
      assert log[i] == step.1;
    }
  }

  /** `download_files`. */
  method DownloadFiles(repo: string, filenames: seq<string>, dir: string, disk0: Disk,
                       fetch: Fetcher, sha: Hasher)
    returns (disk: Disk, log: seq<Outcome>)
    ensures (disk, log) == DownloadAll(disk0, repo, filenames, dir, fetch, sha)
    ensures |log| == |filenames|
  {
    disk, log := disk0, [];
    var i := 0;
    while i < |filenames|
      invariant 0 <= i <= |filenames|
      invariant (disk, log) == DownloadAll(disk0, repo, filenames[..i], dir, fetch, sha)
    {
      assert filenames[..i + 1][..i] == filenames[..i];
      var step := DownloadOne(disk, repo, filenames[i], dir, fetch, sha);
      disk := step.0;
      log := log + [step.1];
      i := i + 1;
    }
    assert filenames[..i] == filenames;
  }

  // ---- get_voice_models and download_base_models ----------------------------

  /** Repository entries under "voices/", with every "voices/" removed. */
  function VoiceFiles(repoFiles: seq<string>): seq<string>
  {
    if repoFiles == [] then []
    else (if StartsWith(repoFiles[0], "voices/") then [Replace(repoFiles[0], "voices/", "")] else [])
         + VoiceFiles(repoFiles[1..])
  }

  /** The English voices: names starting with 'a' (American) or 'b' (British). */
  function EnglishVoices(names: seq<string>): seq<string>
  {
    if names == [] then []
    else (if StartsWith(names[0], "a") || StartsWith(names[0], "b") then [names[0]] else [])
         + EnglishVoices(names[1..])
  }

  function Reprefixed(names: seq<string>): (r: seq<string>)
    ensures |r| == |names| && forall k :: 0 <= k < |names| ==> r[k] == "voices/" + names[k]
  {
    seq(|names|, k requires 0 <= k < |names| => "voices/" + names[k])
  }

  /** What `get_voice_models` asks to download for a repository listing. */
  function VoiceRequests(repoFiles: seq<string>): seq<string>
  {
    Reprefixed(EnglishVoices(VoiceFiles(repoFiles)))
  }

  /** A voice is selected exactly when some repository entry under "voices/" yields
      it after the prefix is removed and it starts with 'a' or 'b'. */
  lemma {:induction false} VoiceSelection(repoFiles: seq<string>, v: string)
    ensures v in EnglishVoices(VoiceFiles(repoFiles)) <==>
            (StartsWith(v, "a") || StartsWith(v, "b")) &&
            exists k :: 0 <= k < |repoFiles| && StartsWith(repoFiles[k], "voices/") &&
                        v == Replace(repoFiles[k], "voices/", "")
    decreases |repoFiles|
  {
    if repoFiles != [] {
      var f := repoFiles[0];
      var rest := repoFiles[1..];
      VoiceSelection(rest, v);
      EnglishAppend((if StartsWith(f, "voices/") then [Replace(f, "voices/", "")] else []),
                    VoiceFiles(rest));
      assert forall k :: 1 <= k < |repoFiles| ==> repoFiles[k] == rest[k - 1];
      if (StartsWith(v, "a") || StartsWith(v, "b")) &&
         exists k :: 0 <= k < |repoFiles| && StartsWith(repoFiles[k], "voices/") &&
                     v == Replace(repoFiles[k], "voices/", "") {
        var k :| 0 <= k < |repoFiles| && StartsWith(repoFiles[k], "voices/") &&
                 v == Replace(repoFiles[k], "voices/", "");
        if k > 0 {
          assert StartsWith(rest[k - 1], "voices/") && v == Replace(rest[k - 1], "voices/", "");
        }
      }
    }
  }

  lemma {:induction false} EnglishAppend(a: seq<string>, b: seq<string>)
    ensures EnglishVoices(a + b) == EnglishVoices(a) + EnglishVoices(b)
    decreases |a|
  {
    if a == [] {
      assert a + b == b;
    } else {
      EnglishAppend(a[1..], b);
      var h := if StartsWith(a[0], "a") || StartsWith(a[0], "b") then [a[0]] else [];
      assert (a + b)[0] == a[0];
      assert (a + b)[1..] == a[1..] + b;
      assert EnglishVoices(a + b) == h + EnglishVoices(a[1..] + b);
      assert EnglishVoices(a) == h + EnglishVoices(a[1..]);
    }
  }

  /** Replacing a pattern that does not occur changes nothing. */
  lemma {:induction false} ReplaceAbsent(s: string, pat: string, rep: string)
    requires pat != [] && !Contains(s, pat)
    ensures Replace(s, pat, rep) == s
    decreases |s|
  {
    if |s| >= |pat| {
      assert !StartsWith(s, pat);
      ReplaceAbsent(s[1..], pat, rep);
      assert s == [s[0]] + s[1..];
    }
  }

  /** A repository voice with "voices/" only at its front is requested under its own name. */
  lemma RequestIsRepoName(f: string)
    requires StartsWith(f, "voices/") && !Contains(f[7..], "voices/")
    ensures "voices/" + Replace(f, "voices/", "") == f
  {
    assert f[..7] == "voices/";
    ReplaceAbsent(f[7..], "voices/", "");
    assert f == f[..7] + f[7..];
  }

  /** `get_voice_models`: nothing is downloaded when the listing fails. */
  method GetVoiceModels(listing: Option<seq<string>>, disk0: Disk, fetch: Fetcher, sha: Hasher)
    returns (disk: Disk, requested: seq<string>, log: seq<Outcome>)
    ensures listing.None? ==> disk == disk0 && requested == [] && log == []
    ensures listing.Some? ==>
              requested == VoiceRequests(listing.value) &&
              (disk, log) == DownloadAll(disk0, RepoId, requested, VoicesDir(), fetch, sha)
  {
    if listing.None? {
      return disk0, [], [];
    }
    requested := VoiceRequests(listing.value);
    disk, log := DownloadFiles(RepoId, requested, VoicesDir(), disk0, fetch, sha);
  }

  /** `download_base_models`: the full and the half-precision model from the mirror. */
  method DownloadBaseModels(disk0: Disk, fetch: Fetcher, sha: Hasher)
    returns (disk: Disk, log: seq<Outcome>)
    ensures var first := DownloadAll(disk0, MirrorRepoId, [KokoroFile], KokoroDir, fetch, sha);
            var second := DownloadAll(first.0, MirrorRepoId, [Fp16File], Fp16Dir(), fetch, sha);
            disk == second.0 && log == first.1 + second.1 && |log| == 2
  {
    var log1, log2;
    disk, log1 := DownloadFiles(MirrorRepoId, [KokoroFile], KokoroDir, disk0, fetch, sha);
    disk, log2 := DownloadFiles(MirrorRepoId, [Fp16File], Fp16Dir(), disk, fetch, sha);
    log := log1 + log2;
  }

  /** The base models land exactly where `update_model` loads them from. */
  lemma BaseModelDestinations()
    ensures Destination(KokoroDir, KokoroFile) == TtsLogic.ModelPath(KokoroFile)
    ensures Destination(Fp16Dir(), Fp16File) == TtsLogic.ModelPath(TtsLogic.HalfModel)
  {
    FullModelDestination();
    HalfModelDestination();
  }

  lemma FullModelDestination()
    ensures Destination(KokoroDir, KokoroFile) == TtsLogic.ModelPath(KokoroFile)
  {
    assert '/' !in KokoroFile;
    BasenameOfJoin("", KokoroFile);
    assert Join("", KokoroFile) == KokoroFile;
    assert KokoroFile != TtsLogic.HalfModel;
  }

  lemma HalfModelDestination()
    ensures Destination(Fp16Dir(), Fp16File) == TtsLogic.ModelPath(TtsLogic.HalfModel)
  {
    HalfModelBasename();
    Fp16DirPath();
    assert Destination(Fp16Dir(), Fp16File) == Join("./KOKORO/fp16", TtsLogic.HalfModel);
  }

  lemma HalfModelBasename()
    ensures Basename(Fp16File) == TtsLogic.HalfModel
  {
    var half := TtsLogic.HalfModel;
    assert Fp16File == "fp16" + "/" + half;
    assert '/' !in half;
    BasenameAfterFolder("fp16", half);
  }

  lemma BasenameAfterFolder(folder: string, name: string)
    requires '/' !in folder && '/' !in name
    ensures Basename(folder + "/" + name) == name
  {
    var p := folder + "/" + name;
    RFindAt(p, '/', |folder|);
  }

  lemma Fp16DirPath()
    ensures Fp16Dir() == "./KOKORO/fp16"
  {
    assert !EndsWith(KokoroDir, "/") && !StartsWith("fp16", "/");
  }

  // ---- the voice folder: listing, mixing, names -----------------------------

  /** The voice names in a folder listing: files ending in ".pt", without the extension. */
  function PtStems(listing: seq<string>): seq<string>
  {
    if listing == [] then []
    else (if EndsWith(listing[0], ".pt") then [Root(listing[0])] else []) + PtStems(listing[1..])
  }

  /** `itertools.combinations(voices, 2)`: every pair (v[i], v[j]) with i < j, in
      lexicographic order of the positions. */
  function Pairs(v: seq<string>): seq<(string, string)>
    decreases |v|
  {
    if v == [] then [] else PairsWith(v[0], v[1..]) + Pairs(v[1..])
  }

  function PairsWith(x: string, rest: seq<string>): (r: seq<(string, string)>)
    ensures |r| == |rest| && forall k :: 0 <= k < |rest| ==> r[k] == (x, rest[k])
  {
    seq(|rest|, k requires 0 <= k < |rest| => (x, rest[k]))
  }

  /** n voices give n(n-1)/2 pairs. */
  lemma {:induction false} PairsCount(v: seq<string>)
    ensures 2 * |Pairs(v)| == |v| * (|v| - 1)
    ensures |Pairs(v)| == |v| * (|v| - 1) / 2
    decreases |v|
  {
    if v != [] {
      PairsCount(v[1..]);
      var n := |v|;
      assert 2 * |Pairs(v)| == 2 * (n - 1) + (n - 1) * (n - 2);
      assert 2 * (n - 1) + (n - 1) * (n - 2) == n * (n - 1);
    }
  }

  /** The pairs are exactly those of two positions in increasing order. */
  lemma PairsMembers(v: seq<string>)
    ensures forall i, j :: 0 <= i < j < |v| ==> (v[i], v[j]) in Pairs(v)
    ensures forall p :: p in Pairs(v) ==> exists i, j :: 0 <= i < j < |v| && p == (v[i], v[j])
  {
    PairsComplete(v);
    PairsSound(v);
  }

  lemma {:induction false} PairsComplete(v: seq<string>)
    ensures forall i, j :: 0 <= i < j < |v| ==> (v[i], v[j]) in Pairs(v)
    decreases |v|
  {
    if v != [] {
      var rest := v[1..];
      PairsComplete(rest);
      var head := PairsWith(v[0], rest);
      assert Pairs(v) == head + Pairs(rest);
      forall i, j | 0 <= i < j < |v| ensures (v[i], v[j]) in Pairs(v) {
        if i == 0 {
          assert head[j - 1] == (v[i], v[j]);
        } else {
          assert v[i] == rest[i - 1] && v[j] == rest[j - 1];
        }
      }
    }
  }

  lemma {:induction false} PairsSound(v: seq<string>)
    ensures forall p :: p in Pairs(v) ==> exists i, j :: 0 <= i < j < |v| && p == (v[i], v[j])
    decreases |v|
  {
    if v != [] {
      var rest := v[1..];
      PairsSound(rest);
      var head := PairsWith(v[0], rest);
      assert Pairs(v) == head + Pairs(rest);
      forall p | p in Pairs(v) ensures exists i, j :: 0 <= i < j < |v| && p == (v[i], v[j]) {
        if p in head {
          var k :| 0 <= k < |head| && head[k] == p;
          assert p == (v[0], v[k + 1]);
        } else {
          var i, j :| 0 <= i < j < |rest| && p == (rest[i], rest[j]);
          assert p == (v[i + 1], v[j + 1]);
        }
      }
    }
  }

  function MixName(v1: string, v2: string): string
  {
    v1 + "_mix_" + v2
  }

  /** The mix name is the two voice names around "_mix_". */
  lemma MixNameParts(v1: string, v2: string)
    ensures StartsWith(MixName(v1, v2), v1)
    ensures EndsWith(MixName(v1, v2), v2)
    ensures var m := MixName(v1, v2); m[|v1|..|v1| + 5] == "_mix_"
    ensures |MixName(v1, v2)| == |v1| + |v2| + 5
  {
    var m := MixName(v1, v2);
    assert m[..|v1|] == v1;
    assert m[|m| - |v2|..] == v2;
  }

  /** Two pairs give the same mix name only when a first voice contains "_mix":
      first voices without it give distinct names to distinct pairs. */
  lemma MixNameInjective(a: string, b: string, c: string, d: string)
    requires !Contains(a, "_mix") && !Contains(c, "_mix")
    requires MixName(a, b) == MixName(c, d)
    ensures a == c && b == d
  {
    var m := MixName(a, b);
    MixNameParts(a, b);
    MixNameParts(c, d);
    if |a| < |c| {
      MixNameShift(m, a, c);
    } else if |c| < |a| {
      MixNameShift(m, c, a);
    } else {
      assert a == m[..|a|] == c;
      assert b == m[|a| + 5..] == d;
    }
  }

  /** In a name with "_mix_" right after two different first voices, the longer
      voice contains "_mix": the two "_mix_" can only overlap four characters apart. */
  lemma MixNameShift(m: string, a: string, c: string)
    requires |a| < |c| && |c| + 5 <= |m| && m[..|c|] == c
    requires m[|a|..|a| + 5] == "_mix_" && m[|c|..|c| + 5] == "_mix_"
    ensures Contains(c, "_mix")
  {
    MixOverlap(m, |a|, |c|);
    assert c[|a|..|a| + 4] == m[|a|..|a| + 4];
    ContainsAt(c, "_mix", |a|);
  }

  /** Two occurrences of "_mix_" start at least four characters apart. */
  lemma MixOverlap(m: string, i: nat, j: nat)
    requires i < j && j + 5 <= |m|
    requires m[i..i + 5] == "_mix_" && m[j..j + 5] == "_mix_"
    ensures i + 4 <= j && m[i..i + 4] == "_mix"
  {
    var w := m[i..i + 5];
    assert m[j] == '_';
    assert j < i + 5 ==> m[j] == w[j - i];
    assert w[1] == 'm' && w[2] == 'i' && w[3] == 'x';
    if j < i + 4 {
      assert false;
    }
    assert m[i..i + 4] == m[i..i + 5][..4];
  }

  /** Without that condition two pairs can collide: the later save overwrites the
      earlier mix. */
  lemma MixNamesCollide()
    ensures MixName("af", "mix_bella") == MixName("af_mix", "bella")
    ensures ("af", "mix_bella") != ("af_mix", "bella")
  {
    assert "af"[..] != "af_mix";
  }

  /** No element occurs twice. */
  predicate Distinct<T(==)>(s: seq<T>)
  {
    forall i, j :: 0 <= i < j < |s| ==> s[i] != s[j]
  }

  /** Distinct voices give distinct pairs. */
  lemma {:induction false} PairsDistinct(v: seq<string>)
    requires Distinct(v)
    ensures Distinct(Pairs(v))
    decreases |v|
  {
    if v != [] {
      var rest := v[1..];
      assert Distinct(rest) by {
        forall i, j | 0 <= i < j < |rest| ensures rest[i] != rest[j] {
          assert rest[i] == v[i + 1] && rest[j] == v[j + 1];
        }
      }
      PairsDistinct(rest);
      PairsSound(rest);
      var head := PairsWith(v[0], rest);
      var all := Pairs(v);
      assert all == head + Pairs(rest);
      forall i, j | 0 <= i < j < |all| ensures all[i] != all[j] {
        if j < |head| {
          assert all[i] == (v[0], v[i + 1]) && all[j] == (v[0], v[j + 1]);
        } else if i < |head| {
          assert all[i].0 == v[0];
          var p := all[j];
          assert p in Pairs(rest);
          var a, b :| 0 <= a < b < |rest| && p == (rest[a], rest[b]);
          assert p.0 == v[a + 1];
        }
      }
    }
  }

  /** A completed run over the pairs of distinct voices, none of them with "_mix"
      in its name, creates n(n-1)/2 mixes with pairwise distinct names, so no mix
      overwrites another. */
  lemma MixFilesDistinct(folder: string, store: VoiceStore, listing: seq<string>)
    requires MixAll(folder, store, Pairs(PtStems(listing))).Success?
    requires Distinct(PtStems(listing))
    requires forall k :: 0 <= k < |PtStems(listing)| ==> !Contains(PtStems(listing)[k], "_mix")
    ensures var run := MixAll(folder, store, Pairs(PtStems(listing))).value;
      var n := |PtStems(listing)|;
      && 2 * |run.created| == n * (n - 1)
      && Distinct(run.created)
  {
    var v := PtStems(listing);
    var pairs := Pairs(v);
    var run := MixAll(folder, store, pairs).value;
    MixCreatesEveryPair(folder, store, pairs);
    PairsCount(v);
    PairsDistinct(v);
    PairsSound(v);
    forall i, j | 0 <= i < j < |run.created| ensures run.created[i] != run.created[j] {
      var p, q := pairs[i], pairs[j];
      assert p in pairs && q in pairs;
      var a, b :| 0 <= a < b < |v| && p == (v[a], v[b]);
      var c, d :| 0 <= c < d < |v| && q == (v[c], v[d]);
      if run.created[i] == run.created[j] {
        MixNameInjective(p.0, p.1, q.0, q.1);
        assert false;
      }
    }
  }

  /** A voice tensor, reduced to one real component (the averaging is elementwise). */
  type VoiceStore = map<string, real>

  /** `f'{folder}/{voice}.pt'` */
  function VoiceFile(folder: string, voice: string): string
  {
    folder + "/" + voice + ".pt"
  }

  datatype MixRun = MixRun(store: VoiceStore, created: seq<string>)

  /** A run that `torch.load` ended: the voice file it could not load, and the run
      up to then, whose mixes stay saved. */
  datatype MixAbort = MixAbort(missing: string, done: MixRun)

  /** One `mix_model` call: load both voices, save their mean under the mix name.
      A missing file raises out of the whole run. */
  function MixOne(folder: string, store: VoiceStore, pair: (string, string)): (r: Result<VoiceStore, string>)
    ensures r.Failure? <==> VoiceFile(folder, pair.0) !in store || VoiceFile(folder, pair.1) !in store
  {
    var p1 := VoiceFile(folder, pair.0);
    var p2 := VoiceFile(folder, pair.1);
    if p1 !in store then Failure(p1)
    else if p2 !in store then Failure(p2)
    else Success(store[VoiceFile(folder, MixName(pair.0, pair.1)) := (store[p1] + store[p2]) / 2.0])
  }

  /** A missing first voice is reported before a missing second one; a success
      writes the mean of the two voices at the mix name and keeps every other file. */
  lemma MixOneSpec(folder: string, store: VoiceStore, pair: (string, string))
    ensures var r := MixOne(folder, store, pair);
      var p1, p2 := VoiceFile(folder, pair.0), VoiceFile(folder, pair.1);
      && (p1 !in store ==> r == Failure(p1))
      && (p1 in store && p2 !in store ==> r == Failure(p2))
      && (r.Success? ==>
            var target := VoiceFile(folder, MixName(pair.0, pair.1));
            target in r.value &&
            r.value[target] == (store[p1] + store[p2]) / 2.0 &&
            forall p :: p in store && p != target ==> p in r.value && r.value[p] == store[p])
  {
  }

  /** The mixing loop over the first pairs; the first failure ends it. */
  function MixAll(folder: string, store: VoiceStore, pairs: seq<(string, string)>): Result<MixRun, MixAbort>
    decreases |pairs|
  {
    if pairs == [] then Success(MixRun(store, []))
    else
      match MixAll(folder, store, pairs[..|pairs| - 1])
      case Failure(e) => Failure(e)
      case Success(run) =>
        var last := pairs[|pairs| - 1];
        match MixOne(folder, run.store, last)
        case Failure(p) => Failure(MixAbort(p, run))
        case Success(s) => Success(MixRun(s, run.created + [MixName(last.0, last.1)]))
  }

  /** A failed run stopped at some pair: the pairs before it all mixed, and what the
      failure leaves behind is exactly that successful prefix run. */
  lemma {:induction false} MixFailureKeepsPrefix(folder: string, store: VoiceStore,
                                                 pairs: seq<(string, string)>)
    requires MixAll(folder, store, pairs).Failure?
    ensures var e := MixAll(folder, store, pairs).error;
      exists i :: 0 <= i < |pairs| && MixAll(folder, store, pairs[..i]) == Success(e.done)
                  && MixOne(folder, e.done.store, pairs[i]) == Failure(e.missing)
    decreases |pairs|
  {
    var n := |pairs| - 1;
    var prefix := pairs[..n];
    var e := MixAll(folder, store, pairs).error;
    if MixAll(folder, store, prefix).Failure? {
      MixFailureKeepsPrefix(folder, store, prefix);
      var i :| 0 <= i < n && MixAll(folder, store, prefix[..i]) == Success(e.done)
               && MixOne(folder, e.done.store, prefix[i]) == Failure(e.missing);
      assert prefix[..i] == pairs[..i] && prefix[i] == pairs[i];
    } else {
      assert MixAll(folder, store, pairs[..n]) == Success(e.done);
    }
  }

  /** One more pair extends a successful run by that pair's mix. */
  lemma MixGrows(folder: string, store0: VoiceStore, pairs: seq<(string, string)>, i: nat,
                 store: VoiceStore, created: seq<string>, store': VoiceStore, created': seq<string>)
    requires i < |pairs| && MixAll(folder, store0, pairs[..i]) == Success(MixRun(store, created))
    requires VoiceFile(folder, pairs[i].0) in store && VoiceFile(folder, pairs[i].1) in store
    requires store' == store[VoiceFile(folder, MixName(pairs[i].0, pairs[i].1)) :=
                             (store[VoiceFile(folder, pairs[i].0)] + store[VoiceFile(folder, pairs[i].1)]) / 2.0]
    requires created' == created + [MixName(pairs[i].0, pairs[i].1)]
    ensures MixAll(folder, store0, pairs[..i + 1]) == Success(MixRun(store', created'))
  {
    var p := pairs[..i + 1];
    assert p[..|p| - 1] == pairs[..i];
    assert p[|p| - 1] == pairs[i];
  }

  /** A pair with a missing voice ends the whole run with that voice's path. */
  lemma MixStops(folder: string, store0: VoiceStore, pairs: seq<(string, string)>, i: nat,
                 store: VoiceStore, created: seq<string>)
    requires i < |pairs| && MixAll(folder, store0, pairs[..i]) == Success(MixRun(store, created))
    requires !(VoiceFile(folder, pairs[i].0) in store && VoiceFile(folder, pairs[i].1) in store)
    ensures MixAll(folder, store0, pairs) ==
      Failure(MixAbort(if VoiceFile(folder, pairs[i].0) !in store then VoiceFile(folder, pairs[i].0)
                       else VoiceFile(folder, pairs[i].1), MixRun(store, created)))
  {
    var p := pairs[..i + 1];
    assert p[..|p| - 1] == pairs[..i];
    assert p[|p| - 1] == pairs[i];
    MixFailureSticks(folder, store0, pairs, i + 1);
  }

  /** A run that completes creates one mix per pair, in pair order, and each mix
      file is present afterwards. */
  lemma {:induction false} MixCreatesEveryPair(folder: string, store: VoiceStore,
                                               pairs: seq<(string, string)>)
    requires MixAll(folder, store, pairs).Success?
    ensures var run := MixAll(folder, store, pairs).value;
            |run.created| == |pairs| &&
            (forall k :: 0 <= k < |pairs| ==> run.created[k] == MixName(pairs[k].0, pairs[k].1)) &&
            (forall k :: 0 <= k < |pairs| ==> VoiceFile(folder, run.created[k]) in run.store)
    decreases |pairs|
  {
    if pairs != [] {
      var n := |pairs| - 1;
      var prefix := pairs[..n];
      MixCreatesEveryPair(folder, store, prefix);
      var run := MixAll(folder, store, prefix).value;
      MixOneSpec(folder, run.store, pairs[n]);
      var s := MixOne(folder, run.store, pairs[n]).value;
      var out := MixAll(folder, store, pairs).value;
      assert out == MixRun(s, run.created + [MixName(pairs[n].0, pairs[n].1)]);
      forall k | 0 <= k < |pairs|
        ensures out.created[k] == MixName(pairs[k].0, pairs[k].1)
        ensures VoiceFile(folder, out.created[k]) in out.store
      {
        if k < n {
          assert prefix[k] == pairs[k];
          assert out.created[k] == run.created[k];
          assert VoiceFile(folder, run.created[k]) in run.store;
        }
      }
    }
  }

  /** Once a prefix of the pairs fails, the whole run fails the same way. */
  lemma {:induction false} MixFailureSticks(folder: string, store: VoiceStore,
                                            pairs: seq<(string, string)>, k: nat)
    requires k <= |pairs| && MixAll(folder, store, pairs[..k]).Failure?
    ensures MixAll(folder, store, pairs) == MixAll(folder, store, pairs[..k])
    decreases |pairs| - k
  {
    if k < |pairs| {
      var n := |pairs| - 1;
      assert pairs[..n][..k] == pairs[..k];
      MixFailureSticks(folder, store, pairs[..n], k);
      assert pairs[..n][..k] == pairs[..k];
    } else {
      assert pairs[..k] == pairs;
    }
  }

  /** `mix_all_voices` over a folder listing. */
  method MixAllVoices(folder: string, listing: seq<string>, store0: VoiceStore)
    returns (r: Result<MixRun, MixAbort>)
    ensures r == MixAll(folder, store0, Pairs(PtStems(listing)))
  {
    r := MixPairs(folder, Pairs(PtStems(listing)), store0);
  }

  /** The `mix_model` loop over the pairs, in order. */
  method MixPairs(folder: string, pairs: seq<(string, string)>, store0: VoiceStore)
    returns (r: Result<MixRun, MixAbort>)
    ensures r == MixAll(folder, store0, pairs)
  {
    var store := store0;
    var created: seq<string> := [];
    var i := 0;
    while i < |pairs|
      invariant 0 <= i <= |pairs|
      invariant MixAll(folder, store0, pairs[..i]) == Success(MixRun(store, created))
    {
      var pair := pairs[i];
      var p1 := VoiceFile(folder, pair.0);
      var p2 := VoiceFile(folder, pair.1);
      if p1 !in store || p2 !in store {
        MixStops(folder, store0, pairs, i, store, created);
        return Failure(MixAbort(if p1 !in store then p1 else p2, MixRun(store, created)));
      }
      ghost var before, made := store, created;
      store := store[VoiceFile(folder, MixName(pair.0, pair.1)) := (store[p1] + store[p2]) / 2.0];
      created := created + [MixName(pair.0, pair.1)];
      MixGrows(folder, store0, pairs, i, before, made, store, created);
      i := i + 1;
    }
    assert pairs[..i] == pairs;
    return Success(MixRun(store, created));
  }

  /** Every name is at most as long as every name after it. */
  predicate SortedByLength(s: seq<string>)
  {
    forall i, j :: 0 <= i < j < |s| ==> |s[i]| <= |s[j]|
  }

  /** Place `x` before the first strictly longer name. */
  function Insert(x: string, s: seq<string>): (r: seq<string>)
    ensures multiset(r) == multiset(s) + multiset{x}
    ensures forall k :: 0 <= k < |r| ==> r[k] == x || r[k] in s
    ensures SortedByLength(s) ==> SortedByLength(r)
    decreases |s|
  {
    if s == [] then [x]
    else if |x| < |s[0]| then [x] + s
    else
      var t := Insert(x, s[1..]);
      assert s == [s[0]] + s[1..];
      assert forall k :: 0 <= k < |t| ==> t[k] == x || t[k] in s;
      [s[0]] + t
  }

  /** Python `sorted(names, key=len)`: a stable sort on the length. */
  function SortByLength(s: seq<string>): (r: seq<string>)
    ensures SortedByLength(r)
    ensures multiset(r) == multiset(s)
    decreases |s|
  {
    if s == [] then []
    else
      assert s == s[..|s| - 1] + [s[|s| - 1]];
      Insert(s[|s| - 1], SortByLength(s[..|s| - 1]))
  }

  /** The names of one length, in order. */
  function OfLength(s: seq<string>, n: nat): seq<string>
    decreases |s|
  {
    if s == [] then [] else (if |s[0]| == n then [s[0]] else []) + OfLength(s[1..], n)
  }

  lemma {:induction false} OfLengthAppend(a: seq<string>, b: seq<string>, n: nat)
    ensures OfLength(a + b, n) == OfLength(a, n) + OfLength(b, n)
    decreases |a|
  {
    if a == [] {
      assert a + b == b;
    } else {
      OfLengthAppend(a[1..], b, n);
      var h := if |a[0]| == n then [a[0]] else [];
      assert (a + b)[0] == a[0];
      assert (a + b)[1..] == a[1..] + b;
      assert OfLength(a + b, n) == h + OfLength(a[1..] + b, n);
      assert OfLength(a, n) == h + OfLength(a[1..], n);
    }
  }

  lemma {:induction false} NoneOfLength(s: seq<string>, n: nat)
    requires forall k :: 0 <= k < |s| ==> |s[k]| > n
    ensures OfLength(s, n) == []
    decreases |s|
  {
    if s != [] {
      NoneOfLength(s[1..], n);
    }
  }

  lemma {:induction false} InsertStable(x: string, s: seq<string>, n: nat)
    requires SortedByLength(s)
    ensures OfLength(Insert(x, s), n) == OfLength(s, n) + (if |x| == n then [x] else [])
    decreases |s|
  {
    if s == [] {
    } else if |x| < |s[0]| {
      InsertFrontStable(x, s, n);
    } else {
      assert SortedByLength(s[1..]);
      InsertStable(x, s[1..], n);
      InsertLaterStable(x, s, n);
    }
  }

  /** A name shorter than the first goes in front, and no sorted name after it has its length. */
  lemma InsertFrontStable(x: string, s: seq<string>, n: nat)
    requires SortedByLength(s) && s != [] && |x| < |s[0]|
    ensures OfLength(Insert(x, s), n) == OfLength(s, n) + (if |x| == n then [x] else [])
  {
    if |x| == n {
      NoneOfLength(s, n);
    }
    assert Insert(x, s) == [x] + s;
    OfLengthCons(x, s, n);
  }

  /** Otherwise the first name stays in front of the insertion into the rest. */
  lemma InsertLaterStable(x: string, s: seq<string>, n: nat)
    requires s != [] && |x| >= |s[0]|
    requires OfLength(Insert(x, s[1..]), n) == OfLength(s[1..], n) + (if |x| == n then [x] else [])
    ensures OfLength(Insert(x, s), n) == OfLength(s, n) + (if |x| == n then [x] else [])
  {
    assert Insert(x, s) == [s[0]] + Insert(x, s[1..]);
    OfLengthCons(s[0], Insert(x, s[1..]), n);
    OfLengthCons(s[0], s[1..], n);
    assert [s[0]] + s[1..] == s;
    AppendAssoc(if |s[0]| == n then [s[0]] else [], OfLength(s[1..], n), if |x| == n then [x] else []);
  }

  lemma AppendAssoc<T>(a: seq<T>, b: seq<T>, c: seq<T>)
    ensures a + (b + c) == a + b + c
  {
  }

  lemma OfLengthCons(h: string, t: seq<string>, n: nat)
    ensures OfLength([h] + t, n) == (if |h| == n then [h] else []) + OfLength(t, n)
  {
    assert ([h] + t)[0] == h;
    assert ([h] + t)[1..] == t;
  }

  /** The sort is stable: the names of each length keep their listing order. */
  lemma {:induction false} SortStable(s: seq<string>, n: nat)
    ensures OfLength(SortByLength(s), n) == OfLength(s, n)
    decreases |s|
  {
    if s != [] {
      var init := s[..|s| - 1];
      var x := s[|s| - 1];
      var sorted := SortByLength(init);
      SortStable(init, n);
      InsertStable(x, sorted, n);
      SortLast(s);
      OfLengthLast(s, n);
    }
  }

  lemma SortLast(s: seq<string>)
    requires s != []
    ensures SortByLength(s) == Insert(s[|s| - 1], SortByLength(s[..|s| - 1]))
  {
  }

  lemma OfLengthLast(s: seq<string>, n: nat)
    requires s != []
    ensures OfLength(s, n) ==
      OfLength(s[..|s| - 1], n) + (if |s[|s| - 1]| == n then [s[|s| - 1]] else [])
  {
    var x := s[|s| - 1];
    assert s == s[..|s| - 1] + [x];
    OfLengthAppend(s[..|s| - 1], [x], n);
    assert [x][1..] == [];
  }

  /** The text of the names file: one name per line. */
  function Lines(names: seq<string>): string
    decreases |names|
  {
    if names == [] then "" else Lines(names[..|names| - 1]) + names[|names| - 1] + "\n"
  }

  /** Splitting the file on line breaks gives the names back, then the empty
      piece after the final line break. */
  lemma {:induction false} LinesSplit(names: seq<string>)
    requires forall k :: 0 <= k < |names| ==> '\n' !in names[k]
    ensures Split(Lines(names), '\n') == names + [""]
    decreases |names|
  {
    if names == [] {
    } else {
      var init := names[..|names| - 1];
      var x := names[|names| - 1];
      LinesSplit(init);
      var parts := init + [x, ""];
      assert forall k :: 0 <= k < |parts| ==> '\n' !in parts[k];
      LinesJoin(init, x);
      SplitJoin(parts, '\n');
      assert parts == names + [""];
    }
  }

  lemma {:induction false} LinesJoin(init: seq<string>, x: string)
    ensures Lines(init + [x]) == JoinWith(init + [x, ""], '\n')
    decreases |init|
  {
    var names := init + [x];
    assert names[..|names| - 1] == init;
    if init == [] {
      assert [x, ""][1..] == [""];
    } else {
      var init' := init[..|init| - 1];
      var y := init[|init| - 1];
      assert init == init' + [y];
      LinesJoin(init', y);
      var parts := init' + [y, ""];
      JoinWithAppend(parts, x);
      assert parts[..|parts| - 1] == init;
    }
  }

  /** Appending a piece after the final empty piece of a join. */
  lemma {:induction false} JoinWithAppend(parts: seq<string>, x: string)
    requires |parts| >= 2 && parts[|parts| - 1] == ""
    ensures JoinWith(parts[..|parts| - 1] + [x, ""], '\n') == JoinWith(parts, '\n') + x + "\n"
    decreases |parts|
  {
    var front := parts[..|parts| - 1];
    var longer := front + [x, ""];
    if |parts| == 2 {
      assert longer == [parts[0], x, ""];
      assert longer[1..] == [x, ""];
      assert [x, ""][1..] == [""];
      assert parts[1..] == [""];
    } else {
      JoinWithAppend(parts[1..], x);
      assert longer[0] == parts[0];
      assert longer[1..] == parts[1..][..|parts| - 2] + [x, ""];
    }
  }

  /** `save_voice_names`: the content of the names file, written a line at a time. */
  method SaveVoiceNames(listing: seq<string>) returns (content: string)
    ensures content == Lines(SortByLength(PtStems(listing)))
  {
    content := WriteLines(SortByLength(PtStems(listing)));
  }

  /** The names written one per line, in order. */
  method WriteLines(names: seq<string>) returns (content: string)
    ensures content == Lines(names)
  {
    content := "";
    var i := 0;
    while i < |names|
      invariant 0 <= i <= |names|
      invariant content == Lines(names[..i])
    {
      assert names[..i + 1][..i] == names[..i];
      content := content + names[i] + "\n";
      i := i + 1;
    }
    assert names[..i] == names;
  }
}
