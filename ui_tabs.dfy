/** The voice list tab: every installed voice name falls into exactly one of three
    groups, female, male or other, and each group keeps the order of the list. */
module UiTabs {
  import opened Text

  datatype Category = FemaleVoice | MaleVoice | OtherVoice

  /** "m_" is checked first; "af", the default voice, is female. */
  function CategoryOf(name: string): Category
  {
    if Contains(name, "m_") then MaleVoice
    else if Contains(name, "f_") || name == "af" then FemaleVoice
    else OtherVoice
  }

  /** The names of one group, in list order. */
  function InCategory(names: seq<string>, c: Category): seq<string>
    decreases |names|
  {
    if names == [] then []
    else
      var init := InCategory(names[..|names| - 1], c);
      if CategoryOf(names[|names| - 1]) == c then init + [names[|names| - 1]] else init
  }

  /** A name is in a group exactly when it is listed and belongs there. */
  lemma {:induction false} InCategoryMembers(names: seq<string>, c: Category)
    ensures forall x :: x in InCategory(names, c) <==> x in names && CategoryOf(x) == c
    decreases |names|
  {
    if names != [] {
      var n := |names| - 1;
      InCategoryMembers(names[..n], c);
      assert names == names[..n] + [names[n]];
    }
  }

  /** The three groups together hold every listed name exactly as often as the list does. */
  lemma GroupsPartition(names: seq<string>)
    ensures multiset(InCategory(names, FemaleVoice)) + multiset(InCategory(names, MaleVoice))
            + multiset(InCategory(names, OtherVoice)) == multiset(names)
    ensures |InCategory(names, FemaleVoice)| + |InCategory(names, MaleVoice)|
            + |InCategory(names, OtherVoice)| == |names|
  {
    GroupsMultiset(names);
    var f, m, o := InCategory(names, FemaleVoice), InCategory(names, MaleVoice), InCategory(names, OtherVoice);
    assert |multiset(f) + multiset(m) + multiset(o)| == |multiset(f)| + |multiset(m)| + |multiset(o)|;
  }

  lemma {:induction false} GroupsMultiset(names: seq<string>)
    ensures multiset(InCategory(names, FemaleVoice)) + multiset(InCategory(names, MaleVoice))
            + multiset(InCategory(names, OtherVoice)) == multiset(names)
    decreases |names|
  {
    if names != [] {
      var n := |names| - 1;
      GroupsMultiset(names[..n]);
      assert names == names[..n] + [names[n]];
    }
  }

  /** Grouping a joined list groups each part: the relative order of names is kept. */
  lemma {:induction false} GroupsKeepOrder(a: seq<string>, b: seq<string>, c: Category)
    ensures InCategory(a + b, c) == InCategory(a, c) + InCategory(b, c)
    decreases |b|
  {
    if b == [] {
      assert a + b == a;
    } else {
      var n := |b| - 1;
      GroupsKeepOrder(a, b[..n], c);
      assert (a + b)[..|a + b| - 1] == a + b[..n];
      assert (a + b)[|a + b| - 1] == b[n];
    }
  }

  /** The rules as they fall on the output: a listed name with "m_" is male even when
      it also has "f_"; any other listed name is female exactly when it has "f_" or
      is "af", and other exactly when it is not female. */
  lemma GroupRules(names: seq<string>, name: string)
    requires name in names
    ensures Contains(name, "m_") ==>
              name in InCategory(names, MaleVoice) && name !in InCategory(names, FemaleVoice)
              && name !in InCategory(names, OtherVoice)
    ensures !Contains(name, "m_") ==>
              name !in InCategory(names, MaleVoice)
              && (name in InCategory(names, FemaleVoice) <==> Contains(name, "f_") || name == "af")
              && (name in InCategory(names, OtherVoice) <==> !Contains(name, "f_") && name != "af")
  {
    InCategoryMembers(names, MaleVoice);
    InCategoryMembers(names, FemaleVoice);
    InCategoryMembers(names, OtherVoice);
  }

  /** `get_voice_names_json`: one pass over the voice list, appending each name to
      its group. */
  method GetVoiceNamesJson(voiceList: seq<string>)
    returns (female: seq<string>, male: seq<string>, other: seq<string>)
    ensures female == InCategory(voiceList, FemaleVoice)
    ensures male == InCategory(voiceList, MaleVoice)
    ensures other == InCategory(voiceList, OtherVoice)
  {
    male, female, other := [], [], [];
    var i := 0;
    while i < |voiceList|
      invariant 0 <= i <= |voiceList|
      invariant female == InCategory(voiceList[..i], FemaleVoice)
      invariant male == InCategory(voiceList[..i], MaleVoice)
      invariant other == InCategory(voiceList[..i], OtherVoice)
    {
      var name := voiceList[i];
      assert voiceList[..i + 1][..i] == voiceList[..i];
      if Contains(name, "m_") {
        male := male + [name];
      } else if Contains(name, "f_") || name == "af" {
        female := female + [name];
      } else {
        other := other + [name];
      }
      i := i + 1;
    }
    assert voiceList[..i] == voiceList;
  }
}
