/** The voice mixer: voice packs are loaded from ./KOKORO/voices, each gets a
    display caption for its slider, and a formula such as "af_bella*0.6 + am_adam*0.4"
    is turned into the weighted mean of the named voices.  A voice tensor is
    reduced to one real component (every operation on it is elementwise), and
    Python floats are reals. */
module VoiceMixer {
  import opened Wrappers
  import opened Text
  import opened Paths

  // ---- get_voices: loading ---------------------------------------------------

  /** `torch.load` of a voice file. */
  type Loader = string -> real

  const VoicesFolder: string := "./KOKORO/voices"

  /** The dictionary key of a listed file: every ".pt" removed. */
  function VoiceKey(file: string): string
  {
    Replace(file, ".pt", "")
  }

  /** The voices dictionary after the loading loop has seen the first files:
      a later file with the same key replaces the earlier value. */
  function LoadedVoices(listing: seq<string>, load: Loader): map<string, real>
    decreases |listing|
  {
    if listing == [] then map[]
    else
      var f := listing[|listing| - 1];
      var before := LoadedVoices(listing[..|listing| - 1], load);
      if EndsWith(f, ".pt") then before[VoiceKey(f) := load(VoicesFolder + "/" + f)] else before
  }

  /** The dictionary's key order: each key where it was first inserted. */
  function KeyOrder(listing: seq<string>): seq<string>
    decreases |listing|
  {
    if listing == [] then []
    else
      var f := listing[|listing| - 1];
      var before := KeyOrder(listing[..|listing| - 1]);
      if EndsWith(f, ".pt") && VoiceKey(f) !in before then before + [VoiceKey(f)] else before
  }

  /** The loaded voices are exactly the keys of the ".pt" files, listed once each
      in first-seen order. */
  lemma KeysOfListing(listing: seq<string>, load: Loader)
    ensures forall k :: k in LoadedVoices(listing, load) <==> k in KeyOrder(listing)
    ensures forall k :: k in KeyOrder(listing) <==>
              exists j :: 0 <= j < |listing| && EndsWith(listing[j], ".pt") && VoiceKey(listing[j]) == k
    ensures forall a, b :: 0 <= a < b < |KeyOrder(listing)| ==> KeyOrder(listing)[a] != KeyOrder(listing)[b]
  {
    LoadedKeys(listing, load);
    KeysFromFiles(listing);
    KeysOnce(listing);
  }

  lemma {:induction false} LoadedKeys(listing: seq<string>, load: Loader)
    ensures forall k :: k in LoadedVoices(listing, load) <==> k in KeyOrder(listing)
    decreases |listing|
  {
    if listing != [] {
      LoadedKeys(listing[..|listing| - 1], load);
    }
  }

  lemma {:induction false} KeysFromFiles(listing: seq<string>)
    ensures forall k :: k in KeyOrder(listing) <==>
              exists j :: 0 <= j < |listing| && EndsWith(listing[j], ".pt") && VoiceKey(listing[j]) == k
    decreases |listing|
  {
    if listing != [] {
      var n := |listing| - 1;
      var init := listing[..n];
      KeysFromFiles(init);
      assert forall j :: 0 <= j < n ==> init[j] == listing[j];
      forall k | k in KeyOrder(listing)
        ensures exists j :: 0 <= j < |listing| && EndsWith(listing[j], ".pt") && VoiceKey(listing[j]) == k
      {
        if k !in KeyOrder(init) {
          assert EndsWith(listing[n], ".pt") && VoiceKey(listing[n]) == k;
        }
      }
    }
  }

  lemma {:induction false} KeysOnce(listing: seq<string>)
    ensures forall a, b :: 0 <= a < b < |KeyOrder(listing)| ==> KeyOrder(listing)[a] != KeyOrder(listing)[b]
    decreases |listing|
  {
    if listing != [] {
      KeysOnce(listing[..|listing| - 1]);
    }
  }

  /** The value kept for a key is that of the last file with that key. */
  lemma {:induction false} LastFileWins(listing: seq<string>, load: Loader, j: nat)
    requires j < |listing| && EndsWith(listing[j], ".pt")
    requires forall l :: j < l < |listing| && EndsWith(listing[l], ".pt") ==>
               VoiceKey(listing[l]) != VoiceKey(listing[j])
    ensures VoiceKey(listing[j]) in LoadedVoices(listing, load)
    ensures LoadedVoices(listing, load)[VoiceKey(listing[j])] == load(VoicesFolder + "/" + listing[j])
    decreases |listing|
  {
    var n := |listing| - 1;
    if j < n {
      var init := listing[..n];
      assert init[j] == listing[j];
      LastFileWins(init, load, j);
    }
  }

  // ---- get_voices: slider labels ---------------------------------------------

  const Woman: string := "\U{1F469}"
  const Man: string := "\U{1F468}"
  const NeutralFace: string := "\U{1F610}"
  const UsFlag: string := "\U{1F1FA}\U{1F1F8}"
  const GbFlag: string := "\U{1F1EC}\U{1F1E7}"

  datatype Gender = Female | Male | Unmarked

  /** "f_" is checked first, then "m_" or "b_". */
  function GenderOf(name: string): Gender
  {
    if Contains(name, "f_") then Female
    else if Contains(name, "m_") || Contains(name, "b_") then Male
    else Unmarked
  }

  /** American voice names start with 'a'; every other one shows the British flag. */
  function FlagOf(name: string): string
  {
    if StartsWith(name, "a") then UsFlag else GbFlag
  }

  /** `name.split('_')[-1]` */
  function LastSegment(name: string): (r: string)
    ensures '_' !in r
  {
    var parts := Split(name, '_');
    parts[|parts| - 1]
  }

  /** The slider caption of a voice. */
  function DisplayName(name: string): string
  {
    if name == "af" then "Default " + Woman + UsFlag
    else if name == "af_nicole" then "Nicole \U{1F60F}" + UsFlag
    else if name == "af_bella" then "Bella \U{1F917}" + UsFlag
    else
      match GenderOf(name)
      case Female => Capitalize(LastSegment(name)) + " " + Woman + FlagOf(name)
      case Male => Capitalize(LastSegment(name)) + " " + Man + FlagOf(name)
      case Unmarked => Capitalize(name) + " " + NeutralFace
  }

  /** Reading a caption back: the face after the last space tells the gender. */
  function LabelGender(caption: string): Option<Gender>
  {
    if EndsWith(caption, " " + NeutralFace) then Some(Unmarked)
    else if |caption| >= 4 && caption[|caption| - 4..|caption| - 2] == " " + Woman then Some(Female)
    else if |caption| >= 4 && caption[|caption| - 4..|caption| - 2] == " " + Man then Some(Male)
    else None
  }

  /** Reading a caption back: the flag at its end, if any. */
  function LabelFlag(caption: string): Option<string>
  {
    if |caption| >= 2 && (caption[|caption| - 2..] == UsFlag || caption[|caption| - 2..] == GbFlag)
    then Some(caption[|caption| - 2..]) else None
  }

  /** Reading a caption back: the text before the space. */
  function LabelText(caption: string): string
  {
    if EndsWith(caption, " " + NeutralFace) then caption[..|caption| - 2]
    else if |caption| >= 4 then caption[..|caption| - 4] else caption
  }

  /** Every caption other than the three fixed ones can be read back: it tells the
      gender rule that applied, the flag (US exactly for names starting with 'a'),
      and the capitalised last '_' segment, or the whole capitalised name when
      the name has no gender marker. */
  lemma DisplayNameReadsBack(name: string)
    requires name != "af" && name != "af_nicole" && name != "af_bella"
    ensures var caption := DisplayName(name);
            LabelGender(caption) == Some(GenderOf(name)) &&
            (GenderOf(name) == Unmarked ==>
               LabelText(caption) == Capitalize(name) && LabelFlag(caption) == None) &&
            (GenderOf(name) != Unmarked ==>
               LabelText(caption) == Capitalize(LastSegment(name)) &&
               LabelFlag(caption) == Some(FlagOf(name)) &&
               (LabelFlag(caption) == Some(UsFlag) <==> StartsWith(name, "a")))
  {
    var caption := DisplayName(name);
    assert UsFlag[0] != GbFlag[0];
    match GenderOf(name)
    case Female =>
      GenderedLabel(Capitalize(LastSegment(name)), Woman, FlagOf(name));
    case Male =>
      GenderedLabel(Capitalize(LastSegment(name)), Man, FlagOf(name));
    case Unmarked =>
      UnmarkedLabel(Capitalize(name));
  }

  lemma GenderedLabel(text: string, face: string, flag: string)
    requires face == Woman || face == Man
    requires flag == UsFlag || flag == GbFlag
    ensures var caption := text + " " + face + flag;
            LabelGender(caption) == Some(if face == Woman then Female else Male) &&
            LabelText(caption) == text && LabelFlag(caption) == Some(flag)
  {
    var caption := text + " " + face + flag;
    var n := |caption|;
    assert caption[n - 4..n - 2] == " " + face;
    assert caption[n - 2..] == flag;
    assert caption[..n - 4] == text;
    assert caption[n - 1] == flag[1];
    if face == Man {
      assert (" " + Man)[1] != (" " + Woman)[1];
    }
  }

  lemma UnmarkedLabel(text: string)
    ensures var caption := text + " " + NeutralFace;
            LabelGender(caption) == Some(Unmarked) && LabelText(caption) == text && LabelFlag(caption) == None
  {
    var caption := text + " " + NeutralFace;
    assert caption[|caption| - 2..] == " " + NeutralFace;
    assert caption[..|caption| - 2] == text;
    assert caption[|caption| - 1] != UsFlag[1] && caption[|caption| - 1] != GbFlag[1];
  }

  /** `get_voices`: the voices dictionary and its key order, and the caption of
      every voice.  Both dictionaries are empty when the folder does not exist. */
  method GetVoices(isFolder: bool, listing: seq<string>, load: Loader)
    returns (voices: map<string, real>, order: seq<string>, sliderConfigs: map<string, string>)
    ensures !isFolder ==> voices == map[] && order == [] && sliderConfigs == map[]
    ensures isFolder ==> voices == LoadedVoices(listing, load) && order == KeyOrder(listing)
    ensures sliderConfigs.Keys == voices.Keys
    ensures forall k :: k in sliderConfigs ==> sliderConfigs[k] == DisplayName(k)
  {
    if !isFolder {
      return map[], [], map[];
    }
    voices, order := map[], [];
    var i := 0;
    while i < |listing|
      invariant 0 <= i <= |listing|
      invariant voices == LoadedVoices(listing[..i], load) && order == KeyOrder(listing[..i])
    {
      assert listing[..i + 1][..i] == listing[..i];
      var f := listing[i];
      if EndsWith(f, ".pt") {
        var key := VoiceKey(f);
        if key !in order {
          order := order + [key];
        }
        voices := voices[key := load(VoicesFolder + "/" + f)];
      }
      i := i + 1;
    }
    assert listing[..i] == listing;
    KeysOfListing(listing, load);
    sliderConfigs := Captions(order);
  }

  /** The caption of every ordered voice name, keyed by the name. */
  method Captions(order: seq<string>) returns (sliderConfigs: map<string, string>)
    ensures sliderConfigs.Keys == set k | k in order
    ensures forall k :: k in sliderConfigs ==> sliderConfigs[k] == DisplayName(k)
  {
    sliderConfigs := map[];
    var j := 0;
    while j < |order|
      invariant 0 <= j <= |order|
      invariant sliderConfigs.Keys == set k | k in order[..j]
      invariant forall k :: k in sliderConfigs ==> sliderConfigs[k] == DisplayName(k)
    {
      var name := order[j];
      sliderConfigs := sliderConfigs[name := DisplayName(name)];
      assert order[..j + 1] == order[..j] + [name];
      j := j + 1;
    }
    assert order[..j] == order;
  }

  // ---- parse_voice_formula ---------------------------------------------------

  /** Python's `float(s)` on a stripped weight: a value, or None when it raises. */
  type FloatParser = string -> Option<real>

  datatype FormulaError =
    | EmptyFormula
    | NoVoicesLoaded
    | InvalidTerm(term: string)
    | BadWeight(text: string)
    | UnknownVoice(voice: string)

  /** The text of the `ValueError` each failure raises. */
  function ErrorText(e: FormulaError): string
  {
    match e
    case EmptyFormula => "Empty voice formula"
    case NoVoicesLoaded => "No voices loaded."
    case InvalidTerm(t) => "Invalid term format: " + t
    case BadWeight(s) => "could not convert string to float: '" + s + "'"
    case UnknownVoice(v) => "Unknown voice: " + v
  }

  /** One term "name * weight": exactly one '*', then a weight that parses, then a
      known voice, checked in that order. */
  function ParseTerm(term: string, voices: map<string, real>, parse: FloatParser)
    : (r: Result<(string, real), FormulaError>)
    ensures r.Success? ==> r.value.0 in voices
    ensures r.Failure? ==> r.error.InvalidTerm? || r.error.BadWeight? || r.error.UnknownVoice?
  {
    var parts := Split(Strip(term), '*');
    if |parts| != 2 then Failure(InvalidTerm(Strip(term)))
    else
      var name := Strip(parts[0]);
      var weightText := Strip(parts[1]);
      match parse(weightText)
      case None => Failure(BadWeight(weightText))
      case Some(w) => if name !in voices then Failure(UnknownVoice(name)) else Success((name, w))
  }

  /** When each check of `ParseTerm` fails: a term whose stripped text does not have
      exactly one '*' is badly formed; otherwise the weight must read, and then the
      name must be a loaded voice. A term that passes all three gives its stripped
      name and its weight. */
  lemma ParseTermCases(term: string, voices: map<string, real>, parse: FloatParser)
    ensures var r := ParseTerm(term, voices, parse);
      r == Failure(InvalidTerm(Strip(term))) <==> Count(Strip(term), '*') != 1
    ensures var r := ParseTerm(term, voices, parse);
      var parts := Split(Strip(term), '*');
      Count(Strip(term), '*') == 1 ==>
        && |parts| == 2
        && var name := Strip(parts[0]);
           var weightText := Strip(parts[1]);
           && (parse(weightText).None? ==> r == Failure(BadWeight(weightText)))
           && (parse(weightText).Some? && name !in voices ==> r == Failure(UnknownVoice(name)))
           && (parse(weightText).Some? && name in voices ==> r == Success((name, parse(weightText).value)))
  {
    SplitCount(Strip(term), '*');
  }

  /** The text of one term as a formula writes it: a name, '*', a weight. */
  function TermText(name: string, weightText: string): string
  {
    name + "*" + weightText
  }

  /** A term that reads: name and weight without '*', '+' or surrounding whitespace,
      a loaded voice and a weight that parses. */
  predicate WellFormedTerm(name: string, weightText: string, voices: map<string, real>, parse: FloatParser)
  {
    && Trimmed(name) && Trimmed(weightText)
    && '*' !in name && '*' !in weightText && '+' !in name && '+' !in weightText
    && name in voices && parse(weightText).Some?
  }

  /** A well-formed term reads back as its name and weight. */
  lemma TermReadsBack(name: string, weightText: string, voices: map<string, real>, parse: FloatParser)
    requires WellFormedTerm(name, weightText, voices, parse)
    ensures ParseTerm(TermText(name, weightText), voices, parse) == Success((name, parse(weightText).value))
    ensures '+' !in TermText(name, weightText)
  {
    TermStrips(name, weightText);
    TermSplits(name, weightText);
  }

  /** A term built from stripped parts is already stripped. */
  lemma TermStrips(name: string, weightText: string)
    requires Trimmed(name) && Trimmed(weightText)
    ensures Strip(TermText(name, weightText)) == TermText(name, weightText)
  {
    var t := TermText(name, weightText);
    assert !IsSpace('*');
    assert t[0] == if name != [] then name[0] else '*';
    assert t[|t| - 1] == if weightText != [] then weightText[|weightText| - 1] else '*';
    StripKeeps(t);
  }

  /** A term splits on its one '*' into its name and its weight. */
  lemma TermSplits(name: string, weightText: string)
    requires '*' !in name && '*' !in weightText
    ensures Split(TermText(name, weightText), '*') == [name, weightText]
  {
    assert JoinWith([name, weightText], '*') == TermText(name, weightText);
    SplitJoin([name, weightText], '*');
  }

  /** The term texts of a formula, one per name and weight text. */
  function TermTexts(names: seq<string>, weightTexts: seq<string>): (ts: seq<string>)
    requires |names| == |weightTexts|
    ensures |ts| == |names|
  {
    seq(|names|, k requires 0 <= k < |names| => TermText(names[k], weightTexts[k]))
  }

  /** Every name and weight text makes a well-formed term. */
  predicate WellFormedTerms(names: seq<string>, weightTexts: seq<string>,
                            voices: map<string, real>, parse: FloatParser)
  {
    && |names| == |weightTexts|
    && forall k :: 0 <= k < |names| ==> WellFormedTerm(names[k], weightTexts[k], voices, parse)
  }

  /** The names with the weights their texts parse to. */
  function Pairs(names: seq<string>, weightTexts: seq<string>, parse: FloatParser): (r: seq<(string, real)>)
    requires |names| == |weightTexts|
    requires forall k :: 0 <= k < |weightTexts| ==> parse(weightTexts[k]).Some?
    ensures |r| == |names|
    ensures forall k :: 0 <= k < |names| ==> r[k] == (names[k], parse(weightTexts[k]).value)
  {
    seq(|names|, k requires 0 <= k < |names| => (names[k], parse(weightTexts[k]).value))
  }

  /** Well-formed terms joined with '+' split back into those terms and read back as
      exactly their names and weights, in order; the formula's value is then the
      weighted mean of those voices, or nothing when the weights do not add up to
      something positive. */
  lemma FormulaRoundTrip(names: seq<string>, weightTexts: seq<string>,
                         voices: map<string, real>, parse: FloatParser)
    requires names != [] && WellFormedTerms(names, weightTexts, voices, parse)
    ensures var terms := TermTexts(names, weightTexts);
      && Split(JoinWith(terms, '+'), '+') == terms
      && ParseTerms(terms, TermParser(voices, parse)) == Success(Pairs(names, weightTexts, parse))
    ensures var ts := Pairs(names, weightTexts, parse);
      FormulaValue(JoinWith(TermTexts(names, weightTexts), '+'), voices, parse)
      == Success(if TotalWeight(ts) > 0.0 then Some(WeightedSum(ts, voices) / TotalWeight(ts)) else None)
  {
    var terms := TermTexts(names, weightTexts);
    TermsReadBack(terms, names, weightTexts, voices, parse);
    SplitJoin(terms, '+');
    assert terms[0] == TermText(names[0], weightTexts[0]);
    assert terms[0][|names[0]|] == '*';
    FormulaNotBlank(terms, |names[0]|);
    assert names[0] in voices.Keys;
  }

  /** Well-formed terms read back one by one as their names and weights. */
  lemma TermsReadBack(terms: seq<string>, names: seq<string>, weightTexts: seq<string>,
                      voices: map<string, real>, parse: FloatParser)
    requires WellFormedTerms(names, weightTexts, voices, parse) && terms == TermTexts(names, weightTexts)
    ensures forall k :: 0 <= k < |terms| ==> '+' !in terms[k]
    ensures ParseTerms(terms, TermParser(voices, parse)) == Success(Pairs(names, weightTexts, parse))
  {
    var read := TermParser(voices, parse);
    var pairs := Pairs(names, weightTexts, parse);
    forall k | 0 <= k < |names|
      ensures read(terms[k]) == Success(pairs[k])
      ensures '+' !in terms[k]
    {
      TermParserReadsBack(names[k], weightTexts[k], voices, parse);
    }
    ReadsAll(terms, read, pairs);
  }

  /** `TermReadsBack` through the reader a formula uses. */
  lemma TermParserReadsBack(name: string, weightText: string, voices: map<string, real>, parse: FloatParser)
    requires WellFormedTerm(name, weightText, voices, parse)
    ensures TermParser(voices, parse)(TermText(name, weightText)) == Success((name, parse(weightText).value))
    ensures '+' !in TermText(name, weightText)
  {
    TermReadsBack(name, weightText, voices, parse);
  }

  /** Terms that each read as the matching pair read together as the pairs. */
  lemma ReadsAll(terms: seq<string>, read: TermReader, pairs: seq<(string, real)>)
    requires |pairs| == |terms|
    requires forall k :: 0 <= k < |terms| ==> read(terms[k]) == Success(pairs[k])
    ensures ParseTerms(terms, read) == Success(pairs)
  {
    ParseTermsSpec(terms, read);
    var r := ParseTerms(terms, read);
    assert forall k :: 0 <= k < |terms| ==> r.value[k] == pairs[k];
    assert r.value == pairs;
  }

  /** A formula whose first term has a '*' is not blank. */
  lemma FormulaNotBlank(terms: seq<string>, i: nat)
    requires terms != [] && i < |terms[0]| && terms[0][i] == '*'
    ensures Strip(JoinWith(terms, '+')) != ""
  {
    var formula := JoinWith(terms, '+');
    assert formula[..|terms[0]|] == terms[0];
    assert formula[i] == '*';
    assert !IsSpace('*');
    StripNotBlank(formula, i);
  }

  /** What is done with each term of a formula. */
  type TermReader = string -> Result<(string, real), FormulaError>

  function TermParser(voices: map<string, real>, parse: FloatParser): TermReader
  {
    t => ParseTerm(t, voices, parse)
  }

  /** The results in order; the first failure decides the outcome. */
  function Collect<T, E>(rs: seq<Result<T, E>>): (r: Result<seq<T>, E>)
    ensures r.Success? ==> |r.value| == |rs|
    decreases |rs|
  {
    if rs == [] then Success([])
    else
      match Collect(rs[..|rs| - 1])
      case Failure(e) => Failure(e)
      case Success(ts) =>
        match rs[|rs| - 1]
        case Failure(e) => Failure(e)
        case Success(t) => Success(ts + [t])
  }

  /** All results succeed exactly when the collection does, which then holds their
      values in order; a failure is that of the first failing result. */
  lemma {:induction false} CollectSpec<T, E>(rs: seq<Result<T, E>>)
    ensures var r := Collect(rs);
            (r.Success? <==> forall k :: 0 <= k < |rs| ==> rs[k].Success?) &&
            (r.Success? ==> forall k :: 0 <= k < |rs| ==> r.value[k] == rs[k].value) &&
            (r.Failure? ==> exists k :: 0 <= k < |rs| && rs[k] == Failure(r.error) &&
                              forall j :: 0 <= j < k ==> rs[j].Success?)
    decreases |rs|
  {
    if rs != [] {
      var n := |rs| - 1;
      var init := rs[..n];
      CollectSpec(init);
      assert forall k :: 0 <= k < n ==> init[k] == rs[k];
      var prev := Collect(init);
      if prev.Failure? {
        var k :| 0 <= k < n && init[k] == Failure(prev.error) &&
                 forall j :: 0 <= j < k ==> init[j].Success?;
        assert rs[k] == Failure(prev.error);
      }
    }
  }

  /** Once a prefix of the results fails, the whole collection fails the same way. */
  lemma {:induction false} FailureSticks<T, E>(rs: seq<Result<T, E>>, k: nat)
    requires k <= |rs| && Collect(rs[..k]).Failure?
    ensures Collect(rs) == Collect(rs[..k])
    decreases |rs| - k
  {
    if k < |rs| {
      var n := |rs| - 1;
      assert rs[..n][..k] == rs[..k];
      FailureSticks(rs[..n], k);
    } else {
      assert rs[..k] == rs;
    }
  }

  lemma CollectAppend<T, E>(rs: seq<Result<T, E>>, x: Result<T, E>)
    ensures Collect(rs + [x]) ==
            match Collect(rs)
            case Failure(e) => Failure(e)
            case Success(ts) =>
              match x
              case Failure(e) => Failure(e)
              case Success(t) => Success(ts + [t])
  {
    assert (rs + [x])[..|rs|] == rs;
  }

  /** `f` applied to each element, in order. */
  function Map<A, B>(xs: seq<A>, f: A -> B): (r: seq<B>)
    ensures |r| == |xs|
    decreases |xs|
  {
    if xs == [] then [] else Map(xs[..|xs| - 1], f) + [f(xs[|xs| - 1])]
  }

  lemma {:induction false} MapAt<A, B>(xs: seq<A>, f: A -> B, k: nat)
    requires k < |xs|
    ensures Map(xs, f)[k] == f(xs[k])
    decreases |xs|
  {
    var n := |xs| - 1;
    if k < n {
      assert xs[..n][k] == xs[k];
      MapAt(xs[..n], f, k);
    }
  }

  lemma {:induction false} MapPrefix<A, B>(xs: seq<A>, f: A -> B, k: nat)
    requires k <= |xs|
    ensures Map(xs, f)[..k] == Map(xs[..k], f)
    decreases |xs| - k
  {
    if k < |xs| {
      var n := |xs| - 1;
      assert xs[..n][..k] == xs[..k];
      MapPrefix(xs[..n], f, k);
      var rs := Map(xs, f);
      assert rs[..n] == Map(xs[..n], f);
      assert rs[..k] == rs[..n][..k];
    } else {
      assert xs[..k] == xs;
    }
  }

  /** The weighted terms, or the first error among them. */
  function ParseTerms(terms: seq<string>, read: TermReader): Result<seq<(string, real)>, FormulaError>
  {
    Collect(Map(terms, read))
  }

  /** The terms parse exactly when each does, and then term k gives entry k; a
      failure is that of the first failing term. */
  lemma ParseTermsSpec(terms: seq<string>, read: TermReader)
    ensures var r := ParseTerms(terms, read);
            (r.Success? <==> forall k :: 0 <= k < |terms| ==> read(terms[k]).Success?) &&
            (r.Success? ==> forall k :: 0 <= k < |terms| ==> r.value[k] == read(terms[k]).value) &&
            (r.Failure? ==> exists k :: 0 <= k < |terms| && read(terms[k]) == Failure(r.error) &&
                              forall j :: 0 <= j < k ==> read(terms[j]).Success?)
  {
    CollectSpec(Map(terms, read));
    forall k | 0 <= k < |terms|
      ensures Map(terms, read)[k] == read(terms[k])
    {
      MapAt(terms, read, k);
    }
  }

  /** One more term: the terms so far, then that term. */
  lemma ParseTermsStep(terms: seq<string>, read: TermReader, i: nat)
    requires i < |terms|
    ensures ParseTerms(terms[..i + 1], read) ==
            match ParseTerms(terms[..i], read)
            case Failure(e) => Failure(e)
            case Success(ts) =>
              match read(terms[i])
              case Failure(e) => Failure(e)
              case Success(t) => Success(ts + [t])
  {
    assert terms[..i + 1][..i] == terms[..i];
    CollectAppend(Map(terms[..i], read), read(terms[i]));
  }

  /** Once the first terms fail, all of them fail with the same error. */
  lemma TermFailureSticks(terms: seq<string>, read: TermReader, k: nat)
    requires k <= |terms| && ParseTerms(terms[..k], read).Failure?
    ensures ParseTerms(terms, read) == ParseTerms(terms[..k], read)
  {
    MapPrefix(terms, read, k);
    FailureSticks(Map(terms, read), k);
  }

  /** The value of a voice; every parsed name is a loaded voice. */
  function Level(voices: map<string, real>, name: string): real
  {
    if name in voices then voices[name] else 0.0
  }

  /** Sum of weight times voice over the terms. */
  function WeightedSum(ts: seq<(string, real)>, voices: map<string, real>): real
    decreases |ts|
  {
    if ts == [] then 0.0
    else WeightedSum(ts[..|ts| - 1], voices) + Contribution(ts[|ts| - 1], voices)
  }

  /** Weight times voice for one term. */
  function Contribution(t: (string, real), voices: map<string, real>): real
  {
    t.1 * Level(voices, t.0)
  }

  function TotalWeight(ts: seq<(string, real)>): real
    decreases |ts|
  {
    if ts == [] then 0.0 else TotalWeight(ts[..|ts| - 1]) + ts[|ts| - 1].1
  }

  /** The weighted mean of the read terms, None when the weights do not add up to
      something positive. */
  function MixOf(terms: seq<string>, voices: map<string, real>, read: TermReader)
    : Result<Option<real>, FormulaError>
  {
    match ParseTerms(terms, read)
    case Failure(e) => Failure(e)
    case Success(ts) =>
      if TotalWeight(ts) > 0.0 then Success(Some(WeightedSum(ts, voices) / TotalWeight(ts)))
      else Success(None)
  }

  /** What `parse_voice_formula` computes: the two checks on the whole formula,
      then the mix of its '+'-separated terms. */
  function FormulaValue(formula: string, voices: map<string, real>, parse: FloatParser)
    : Result<Option<real>, FormulaError>
  {
    if Strip(formula) == "" then Failure(EmptyFormula)
    else if |voices| == 0 then Failure(NoVoicesLoaded)
    else MixOf(Split(formula, '+'), voices, TermParser(voices, parse))
  }

  /** The terms mix exactly when each of them reads; otherwise the first bad term
      decides the error. */
  lemma MixAccepted(terms: seq<string>, voices: map<string, real>, read: TermReader)
    ensures var r := MixOf(terms, voices, read);
            (r.Success? <==> forall k :: 0 <= k < |terms| ==> read(terms[k]).Success?) &&
            (r.Failure? ==> exists k :: 0 <= k < |terms| && read(terms[k]) == Failure(r.error) &&
                              forall j :: 0 <= j < k ==> read(terms[j]).Success?)
  {
    ParseTermsSpec(terms, read);
  }

  /** A bad term is reported as such, never as one of the two whole-formula errors. */
  lemma MixErrorIsTermError(terms: seq<string>, voices: map<string, real>, parse: FloatParser)
    ensures var r := MixOf(terms, voices, TermParser(voices, parse));
            r.Failure? ==> r.error.InvalidTerm? || r.error.BadWeight? || r.error.UnknownVoice?
  {
    var read := TermParser(voices, parse);
    ParseTermsSpec(terms, read);
    if ParseTerms(terms, read).Failure? {
      var k :| 0 <= k < |terms| && read(terms[k]) == Failure(ParseTerms(terms, read).error);
      assert read(terms[k]) == ParseTerm(terms[k], voices, parse);
    }
  }

  /** The blank check comes first, then the check for loaded voices, then the terms. */
  lemma FormulaChecks(formula: string, voices: map<string, real>, parse: FloatParser)
    ensures var r := FormulaValue(formula, voices, parse);
            (r == Failure(EmptyFormula) <==> Strip(formula) == "") &&
            (r == Failure(NoVoicesLoaded) <==> Strip(formula) != "" && |voices| == 0) &&
            (Strip(formula) != "" && |voices| > 0 ==>
               r == MixOf(Split(formula, '+'), voices, TermParser(voices, parse)))
  {
    MixErrorIsTermError(Split(formula, '+'), voices, parse);
  }

  /** Mixing one voice with itself, in any proportions, gives that voice times the weight. */
  lemma {:induction false} SameVoiceSum(ts: seq<(string, real)>, voices: map<string, real>, v: string)
    requires forall k :: 0 <= k < |ts| ==> ts[k].0 == v
    ensures WeightedSum(ts, voices) == TotalWeight(ts) * Level(voices, v)
    decreases |ts|
  {
    if ts != [] {
      var n := |ts| - 1;
      SameVoiceSum(ts[..n], voices, v);
      Distribute(TotalWeight(ts[..n]), ts[n].1, Level(voices, v));
    }
  }

  lemma Distribute(a: real, b: real, x: real)
    ensures (a + b) * x == a * x + b * x
  {
  }

  lemma SameVoiceMean(ts: seq<(string, real)>, voices: map<string, real>, v: string)
    requires forall k :: 0 <= k < |ts| ==> ts[k].0 == v
    requires TotalWeight(ts) > 0.0
    ensures WeightedSum(ts, voices) / TotalWeight(ts) == Level(voices, v)
  {
    SameVoiceSum(ts, voices, v);
    DivOfProduct(WeightedSum(ts, voices), TotalWeight(ts), Level(voices, v));
  }

  lemma DivOfProduct(s: real, t: real, x: real)
    requires t > 0.0 && s == t * x
    ensures s / t == x
  {
  }

  /** Mixed terms give the weighted mean of what they read, each a loaded voice,
      and a value exactly when their weights add up to something positive. */
  lemma MixIsWeightedMean(terms: seq<string>, voices: map<string, real>, parse: FloatParser)
    requires MixOf(terms, voices, TermParser(voices, parse)).Success?
    ensures var ts := ParseTerms(terms, TermParser(voices, parse)).value;
            var m := MixOf(terms, voices, TermParser(voices, parse)).value;
            |ts| == |terms| &&
            (forall k :: 0 <= k < |ts| ==> ts[k].0 in voices) &&
            (m.Some? <==> TotalWeight(ts) > 0.0) &&
            (m.Some? ==> MeanOfSum(m.value, WeightedSum(ts, voices), TotalWeight(ts)))
  {
    var read := TermParser(voices, parse);
    ParsedNamesKnown(terms, voices, parse);
    var ts := ParseTerms(terms, read).value;
    var m := MixOf(terms, voices, read).value;
    assert m == if TotalWeight(ts) > 0.0 then Some(WeightedSum(ts, voices) / TotalWeight(ts)) else None;
    MeanOf(WeightedSum(ts, voices), TotalWeight(ts), m);
  }

  /** `m` is the mean of the sum `s` over the positive total `t`: scaled back by the
      total it gives the sum. */
  predicate MeanOfSum(m: real, s: real, t: real)
  {
    t > 0.0 && m * t == s
  }

  /** A mean that is there exactly when the total is positive gives the sum back. */
  lemma MeanOf(s: real, t: real, m: Option<real>)
    requires m == if t > 0.0 then Some(s / t) else None
    ensures (m.Some? <==> t > 0.0) && (m.Some? ==> MeanOfSum(m.value, s, t))
  {
    if t > 0.0 {
      DivTimes(s, t);
    }
  }

  lemma ParsedNamesKnown(terms: seq<string>, voices: map<string, real>, parse: FloatParser)
    requires ParseTerms(terms, TermParser(voices, parse)).Success?
    ensures var ts := ParseTerms(terms, TermParser(voices, parse)).value;
            forall k :: 0 <= k < |ts| ==> ts[k].0 in voices
  {
    var read := TermParser(voices, parse);
    ParseTermsSpec(terms, read);
    var ts := ParseTerms(terms, read).value;
    forall k | 0 <= k < |ts|
      ensures ts[k].0 in voices
    {
      assert ts[k] == read(terms[k]).value;
      assert read(terms[k]) == ParseTerm(terms[k], voices, parse);
    }
  }

  lemma DivTimes(s: real, t: real)
    requires t > 0.0
    ensures s / t * t == s
  {
  }

  lemma {:induction false} MapConcat<A, B>(xs: seq<A>, ys: seq<A>, f: A -> B)
    ensures Map(xs + ys, f) == Map(xs, f) + Map(ys, f)
    decreases |ys|
  {
    if ys == [] {
      assert xs + ys == xs;
    } else {
      var n := |ys| - 1;
      MapConcat(xs, ys[..n], f);
      assert (xs + ys)[..|xs + ys| - 1] == xs + ys[..n];
      assert (xs + ys)[|xs + ys| - 1] == ys[n];
    }
  }

  lemma {:induction false} CollectConcat<T, E>(rs: seq<Result<T, E>>, qs: seq<Result<T, E>>)
    requires Collect(rs).Success? && Collect(qs).Success?
    ensures Collect(rs + qs) == Success(Collect(rs).value + Collect(qs).value)
    decreases |qs|
  {
    if qs == [] {
      assert rs + qs == rs;
      assert Collect(rs).value + Collect(qs).value == Collect(rs).value;
    } else {
      var n := |qs| - 1;
      assert qs == qs[..n] + [qs[n]];
      CollectAppend(qs[..n], qs[n]);
      var a, b, t := Collect(rs).value, Collect(qs[..n]).value, qs[n].value;
      CollectConcat(rs, qs[..n]);
      assert rs + qs == (rs + qs[..n]) + [qs[n]];
      CollectAppend(rs + qs[..n], qs[n]);
      assert (a + b) + [t] == a + (b + [t]);
    }
  }

  lemma {:induction false} SumsConcat(ts: seq<(string, real)>, us: seq<(string, real)>, voices: map<string, real>)
    ensures WeightedSum(ts + us, voices) == WeightedSum(ts, voices) + WeightedSum(us, voices)
    ensures TotalWeight(ts + us) == TotalWeight(ts) + TotalWeight(us)
    decreases |us|
  {
    if us == [] {
      assert ts + us == ts;
    } else {
      var n := |us| - 1;
      SumsConcat(ts, us[..n], voices);
      assert (ts + us)[..|ts + us| - 1] == ts + us[..n];
      assert (ts + us)[|ts + us| - 1] == us[n];
    }
  }

  /** The order of the terms does not matter: two groups of well-formed terms mix
      to the same voice whichever comes first. */
  lemma TermOrderIrrelevant(a: seq<string>, b: seq<string>, voices: map<string, real>, read: TermReader)
    requires ParseTerms(a, read).Success? && ParseTerms(b, read).Success?
    ensures MixOf(a + b, voices, read) == MixOf(b + a, voices, read)
  {
    var ta, tb := ParseTerms(a, read).value, ParseTerms(b, read).value;
    ParseConcat(a, b, read);
    ParseConcat(b, a, read);
    SumsConcat(ta, tb, voices);
    SumsConcat(tb, ta, voices);
    SameSumsMix(a + b, b + a, voices, read);
  }

  /** Well-formed groups of terms parse, joined, to their joined parses. */
  lemma ParseConcat(a: seq<string>, b: seq<string>, read: TermReader)
    requires ParseTerms(a, read).Success? && ParseTerms(b, read).Success?
    ensures ParseTerms(a + b, read) == Success(ParseTerms(a, read).value + ParseTerms(b, read).value)
  {
    MapConcat(a, b, read);
    CollectConcat(Map(a, read), Map(b, read));
  }

  /** The mix depends on the parsed terms only through the two sums. */
  lemma SameSumsMix(x: seq<string>, y: seq<string>, voices: map<string, real>, read: TermReader)
    requires ParseTerms(x, read).Success? && ParseTerms(y, read).Success?
    requires WeightedSum(ParseTerms(x, read).value, voices) == WeightedSum(ParseTerms(y, read).value, voices)
    requires TotalWeight(ParseTerms(x, read).value) == TotalWeight(ParseTerms(y, read).value)
    ensures MixOf(x, voices, read) == MixOf(y, voices, read)
  {
  }

  /** Terms that all name one voice, with a positive total weight, give exactly
      that voice. */
  lemma SingleVoiceMix(terms: seq<string>, voices: map<string, real>, read: TermReader, v: string)
    requires MixOf(terms, voices, read).Success? && MixOf(terms, voices, read).value.Some?
    requires v in voices
    requires forall k :: 0 <= k < |ParseTerms(terms, read).value| ==> ParseTerms(terms, read).value[k].0 == v
    ensures MixOf(terms, voices, read).value.value == voices[v]
  {
    SameVoiceMean(ParseTerms(terms, read).value, voices, v);
  }

  lemma AppendSums(ts: seq<(string, real)>, t: (string, real), voices: map<string, real>)
    ensures WeightedSum(ts + [t], voices) == WeightedSum(ts, voices) + t.1 * Level(voices, t.0)
    ensures TotalWeight(ts + [t]) == TotalWeight(ts) + t.1
  {
    assert (ts + [t])[..|ts|] == ts;
  }

  /** The loop of `parse_voice_formula`: the running weighted sum and total weight
      over the terms, stopping at the first bad term. */
  method MixTerms(terms: seq<string>, voices: map<string, real>, read: TermReader)
    returns (r: Result<Option<real>, FormulaError>)
    ensures r == MixOf(terms, voices, read)
  {
    var weightedSum := 0.0;
    var totalWeight := 0.0;
    ghost var ts: seq<(string, real)> := [];
    var i := 0;
    while i < |terms|
      invariant 0 <= i <= |terms|
      invariant ParseTerms(terms[..i], read) == Success(ts)
      invariant weightedSum == WeightedSum(ts, voices) && totalWeight == TotalWeight(ts)
    {
      ParseTermsStep(terms, read, i);
      match read(terms[i])
      case Failure(e) =>
        TermFailureSticks(terms, read, i + 1);
        return Failure(e);
      case Success(t) =>
        AppendSums(ts, t, voices);
        ts := ts + [t];
        weightedSum := weightedSum + t.1 * Level(voices, t.0);
        totalWeight := totalWeight + t.1;
        i := i + 1;
    }
    assert terms[..i] == terms;
    if totalWeight > 0.0 {
      return Success(Some(weightedSum / totalWeight));
    }
    return Success(None);
  }

  const VoiceMixFilename: string := "weighted_normalised_voices.pt"

  /** The loaded voices, held by the module after it loads them once. */
  class Mixer {
    var voices: map<string, real>

    /** `voices, _ = get_voices()` */
    constructor (isFolder: bool, listing: seq<string>, load: Loader)
      ensures voices == if isFolder then LoadedVoices(listing, load) else map[]
    {
      var loaded, order, sliders := GetVoices(isFolder, listing, load);
      voices := loaded;
    }

    /** `parse_voice_formula`: the checks on the whole formula, then the loop
        over its terms. */
    method ParseVoiceFormula(formula: string, parse: FloatParser)
      returns (r: Result<Option<real>, FormulaError>)
      ensures r == FormulaValue(formula, voices, parse)
    {
      if Strip(formula) == "" {
        return Failure(EmptyFormula);
      }
      if |voices| == 0 {
        return Failure(NoVoicesLoaded);
      }
      r := MixTerms(Split(formula, '+'), voices, TermParser(voices, parse));
    }

    /** `get_new_voice_path`: the saved mix file and the value saved in it, or the
        message of the error raised to the UI. */
    method GetNewVoicePath(formula: string, basePath: string, parse: FloatParser)
      returns (r: Result<(string, real), string>)
      ensures match FormulaValue(formula, voices, parse)
              case Failure(e) => r == Failure("Failed to create voice: " + ErrorText(e))
              case Success(None) =>
                r == Failure("Failed to create voice: Could not generate a voice from the formula.")
              case Success(Some(v)) =>
                r == Success((Join(Join(basePath, "dummy"), VoiceMixFilename), v))
    {
      var weighted := ParseVoiceFormula(formula, parse);
      match weighted
      case Failure(e) =>
        return Failure("Failed to create voice: " + ErrorText(e));
      case Success(None) =>
        return Failure("Failed to create voice: Could not generate a voice from the formula.");
      case Success(Some(v)) =>
        return Success((Join(Join(basePath, "dummy"), VoiceMixFilename), v));
    }
  }
}
