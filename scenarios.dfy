/** Worked sentences for the token mapper: the German sentence
    "Der Tisch hat vier eckige Beine." as a parser would hand it over, and
    what the mapper makes of some of its words. */
module Scenarios {
  import opened Wrappers
  import opened Strings
  import opened Dicts
  import opened Features
  import opened Upos
  import opened Tokens
  import opened Mapper
  import opened Syntactical

  /** "Der Tisch hat vier eckige Beine." with its POS tags, FEATS strings
      and dependency heads ("hat" is the root). */
  const DerTisch: seq<Word> := [
    Word("Der", "der", "DET", "Case=Nom|Gender=Masc|Number=Sing", Some(1)),
    Word("Tisch", "Tisch", "NOUN", "Case=Nom|Gender=Masc|Number=Sing", Some(2)),
    Word("hat", "haben", "VERB", "Number=Sing|Person=3|Tense=Pres", None),
    Word("vier", "vier", "NUM", "", Some(5)),
    Word("eckige", "eckig", "ADJ", "Case=Acc|Gender=Neut|Number=Plur", Some(5)),
    Word("Beine", "Bein", "NOUN", "Case=Acc|Gender=Neut|Number=Plur", Some(2)),
    Word(".", "--", "PUNCT", "", Some(2))
  ]

  /** A FEATS string is read back into the dict it was written from. */
  lemma ReadFeats(tags: Dict, feats: string)
    requires forall i :: 0 <= i < |tags| ==>
               '|' !in tags[i].0 && '=' !in tags[i].0 && '|' !in tags[i].1 && '=' !in tags[i].1
    requires Morphology(tags, None).TagsToString() == feats
    ensures PosTagsToDict(feats) == Success(tags)
  {
    TagsRoundTrip(Morphology(tags, None));
  }

  const DerTags: Dict := [("Case", "Nom"), ("Gender", "Masc"), ("Number", "Sing")]
  const HatTags: Dict := [("Number", "Sing"), ("Person", "3"), ("Tense", "Pres")]

  /** The tags of "Der" and "Tisch" written out as a FEATS string. */
  lemma DerTagsString()
    ensures Morphology(DerTags, None).TagsToString() == "Case=Nom|Gender=Masc|Number=Sing"
  {
    assert "Case" + "=" + "Nom" == "Case=Nom";
    assert "Gender" + "=" + "Masc" == "Gender=Masc";
    assert "Number" + "=" + "Sing" == "Number=Sing";
    assert Segments(DerTags) == ["Case=Nom", "Gender=Masc", "Number=Sing"];
    JoinThree("Case=Nom", "Gender=Masc", "Number=Sing", "|");
    DerFeatsLiteral();
  }

  lemma DerFeatsLiteral()
    ensures "Case=Nom" + "|" + "Gender=Masc" + "|" + "Number=Sing" == "Case=Nom|Gender=Masc|Number=Sing"
  {
  }

  /** The FEATS string of "Der" and "Tisch" is read into its tags. */
  lemma DerFeats()
    ensures PosTagsToDict(DerTisch[0].morph) == Success(DerTags)
  {
    DerTagsString();
    ReadFeats(DerTags, DerTisch[0].morph);
  }

  /** A word tagged with a POS name maps to that POS. */
  lemma PosNameMaps(w: Word, u: UPOS)
    requires w.pos == u.Name()
    ensures MapUpos(w) == Some(u)
  {
    UposLookupExact(w, u);
  }

  /** The tag values of the sentence parse to their members. */
  lemma NomParses()
    ensures ParseTag(AllCases, CaseName, Some("Nom")) == Success(NOM)
  {
    FeatureValueLookup("Nom");
    assert Upper("Nom") == "NOM";
  }

  lemma SingParses()
    ensures ParseTag(AllNumbers, NumberName, Some("Sing")) == Success(SING)
  {
    FeatureValueLookup("Sing");
    assert Upper("Sing") == "SING";
  }

  lemma MascParses()
    ensures ParseTag(AllGenders, GenderName, Some("Masc")) == Success(MASC)
  {
    FeatureValueLookup("Masc");
    assert Upper("Masc") == "MASC";
  }

  lemma PresParses()
    ensures ParseTag(AllTenses, TenseName, Some("Pres")) == Success(PRES)
  {
    FeatureValueLookup("Pres");
    assert Upper("Pres") == "PRES";
  }

  /** The tags of "Der" make a nominative singular masculine feature set. */
  lemma DerFeatureSet()
    ensures FeatureSetFromDict(DerTags, DET) == Success(Some(NounFeatureSet(NOM, SING, MASC)))
  {
    NomParses();
    SingParses();
    MascParses();
    GetOfThree("Case", "Nom", "Gender", "Masc", "Number", "Sing");
    NounShapeFromTags(DerTags, NOM, SING, MASC, DET);
  }

  /** A determiner carrying the FEATS string of "Der" maps to a token in
      the nominative singular masculine. */
  lemma DerIsNominativeSingularMasculine(w: Word)
    requires w.pos == DET.Name() && w.morph == DerTisch[0].morph
    ensures FromSpacyToken(w) == Success(Token(w.text, w.lemmaForm, DET, Some(NounFeatureSet(NOM, SING, MASC)), None))
  {
    DerFeats();
    PosNameMaps(w, DET);
    DerFeatureSet();
  }

  /** The tags of "hat" written out as a FEATS string. */
  lemma HatTagsString()
    ensures Morphology(HatTags, None).TagsToString() == "Number=Sing|Person=3|Tense=Pres"
  {
    assert "Number" + "=" + "Sing" == "Number=Sing";
    assert "Person" + "=" + "3" == "Person=3";
    assert "Tense" + "=" + "Pres" == "Tense=Pres";
    assert Segments(HatTags) == ["Number=Sing", "Person=3", "Tense=Pres"];
    JoinThree("Number=Sing", "Person=3", "Tense=Pres", "|");
    HatFeatsLiteral();
  }

  lemma HatFeatsLiteral()
    ensures "Number=Sing" + "|" + "Person=3" + "|" + "Tense=Pres" == "Number=Sing|Person=3|Tense=Pres"
  {
  }

  /** The FEATS string of "hat" is read into its tags. */
  lemma HatFeats()
    ensures PosTagsToDict(DerTisch[2].morph) == Success(HatTags)
  {
    HatTagsString();
    ReadFeats(HatTags, DerTisch[2].morph);
  }

  /** The tags of "hat" make a third person singular present feature set. */
  lemma HatFeatureSet()
    ensures FeatureSetFromDict(HatTags, VERB) == Success(Some(VerbFeatureSet(THIRD, SING, PRES)))
  {
    SingParses();
    PresParses();
    GetOfThree("Number", "Sing", "Person", "3", "Tense", "Pres");
    PersonParses(THIRD);
    VerbShapeFromTags(HatTags, THIRD, SING, PRES, VERB);
  }

  /** A verb carrying the FEATS string of "hat" maps to a token in the
      third person singular present. */
  lemma HatIsThirdPersonSingularPresent(w: Word)
    requires w.pos == VERB.Name() && w.morph == DerTisch[2].morph
    ensures FromSpacyToken(w) == Success(Token(w.text, w.lemmaForm, VERB, Some(VerbFeatureSet(THIRD, SING, PRES)), None))
  {
    HatFeats();
    PosNameMaps(w, VERB);
    HatFeatureSet();
  }

  /** The FEATS string "Case=Nom" holds the case alone. */
  lemma CaseOnlyFeats()
    ensures PosTagsToDict("Case=Nom") == Success([("Case", "Nom")])
  {
    var tags: Dict := [("Case", "Nom")];
    assert "Case" + "=" + "Nom" == "Case=Nom";
    assert Segments(tags) == ["Case=Nom"];
    ReadFeats(tags, "Case=Nom");
  }

  /** A noun whose FEATS string names only its case cannot be mapped: the
      number is missing. */
  lemma NounWithOnlyCaseFails(w: Word)
    requires w.pos == NOUN.Name() && w.morph == "Case=Nom"
    ensures FromSpacyToken(w).Failure?
  {
    CaseOnlyFeats();
    PosNameMaps(w, NOUN);
    var tags: Dict := [("Case", "Nom")];
    assert Get(tags, "Number").None?;
    assert FeatureSetFromDict(tags, NOUN).Failure?;
  }

  /** The words of the sentence all have different texts, so every word
      with a head gets exactly its head as ancestor: "Der" hangs on "Tisch"
      and "eckige" on "Beine"; the root "hat" keeps no ancestor. */
  lemma DerTischAncestors(tokens: seq<Token>)
    requires |tokens| == |DerTisch|
    requires forall i :: 0 <= i < |DerTisch| ==> tokens[i].text == DerTisch[i].text
    ensures Enriched(tokens, DerTisch)[0].ancestor == Some(1)
    ensures Enriched(tokens, DerTisch)[4].ancestor == Some(5)
    ensures Enriched(tokens, DerTisch)[2] == tokens[2]
  {
    DerTischTextsDistinct();
    DerTischHeads();
    AlignedAncestors(tokens, DerTisch);
  }

  /** The heads of the sentence: all inside it; "Der" hangs on "Tisch",
      "eckige" on "Beine", and "hat" has none. */
  lemma DerTischHeads()
    ensures HeadsInRange(DerTisch)
    ensures DerTisch[0].head == Some(1) && DerTisch[2].head.None? && DerTisch[4].head == Some(5)
  {
  }

  /** No two words of the sentence share a text. */
  lemma DerTischTextsDistinct()
    ensures forall j, k :: 0 <= j < k < |DerTisch| ==> DerTisch[j].text != DerTisch[k].text
  {
    var texts := ["Der", "Tisch", "hat", "vier", "eckige", "Beine", "."];
    assert forall i :: 0 <= i < |DerTisch| ==> DerTisch[i].text == texts[i];
    assert forall j, k :: 0 <= j < k < |texts| ==> texts[j][0] != texts[k][0];
  }
}
