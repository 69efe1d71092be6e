/** The annotation mapper of shared/model/token/mapper.py: from one annotated
    word to a `Token`, and from a whole sentence to tokens whose depth-1
    ancestors are filled in by a second, in-place pass. */
module Mapper {
  import opened Wrappers
  import opened Strings
  import opened Dicts
  import opened Features
  import opened Upos
  import opened Tokens

  /** A word as the NLP pipeline annotates it (the fields of a spaCy token
      that the mapper reads): surface text, lemma, Universal POS tag, the
      FEATS string, and the position of its syntactic head in the sentence
      (None for the root, whose ancestor iterator is empty). */
  datatype Word = Word(text: string, lemmaForm: string, pos: string, morph: string, head: Option<nat>)

  /** A parsed sentence: every head is a word of the same sentence. */
  predicate HeadsInRange(doc: seq<Word>)
  {
    forall i :: 0 <= i < |doc| && doc[i].head.Some? ==> doc[i].head.value < |doc|
  }

  // ---------------------------------------------------------------- parse

  /** `parse(string, enum)`: the member whose name is exactly `s`, or None. */
  function Parse<T>(members: seq<T>, name: T -> string, s: string): (r: Option<T>)
    ensures r.Some? ==> r.value in members && name(r.value) == s
    ensures r.None? ==> forall m :: m in members ==> name(m) != s
  {
    if members == [] then None
    else if name(members[0]) == s then Some(members[0])
    else Parse(members[1..], name, s)
  }

  /** With distinct names, parsing a member's own name gives that member back. */
  lemma {:induction false} ParseOwnName<T>(members: seq<T>, name: T -> string, m: T)
    requires m in members
    requires forall a, b :: a in members && b in members && name(a) == name(b) ==> a == b
    ensures Parse(members, name, name(m)) == Some(m)
  {
    if members[0] != m {
      assert members[0] in members;
      ParseOwnName(members[1..], name, m);
    }
  }

  function UposName(u: UPOS): string { u.Name() }
  function CaseName(c: Case): string { c.Name() }
  function NumberName(n: Number): string { n.Name() }
  function GenderName(g: Gender): string { g.Name() }
  function TenseName(t: Tense): string { t.Name() }

  /** `map_upos`: the POS tag looked up by exact member name. */
  function MapUpos(w: Word): Option<UPOS>
  {
    Parse(AllUpos, UposName, w.pos)
  }

  /** The POS lookup is exact and case-sensitive: a tag string parses to a
      member iff it is that member's name ("noun" and "Noun" fail). */
  lemma UposLookupExact(w: Word, u: UPOS)
    ensures MapUpos(w) == Some(u) <==> w.pos == u.Name()
  {
    UposCount();
    LabelsAndNamesDistinct();
    if w.pos == u.Name() {
      ParseOwnName(AllUpos, UposName, u);
    }
  }

  /** A feature value as the feature-set constructor receives it:
      `parse(tags.get(key).upper(), enum)`. A missing key fails (`None.upper()`),
      and so does an unknown value (`parse` gives None, which the typed field
      rejects). */
  function ParseTag<T>(members: seq<T>, name: T -> string, value: Option<string>): (r: Result<T>)
    ensures r.Success? ==> value.Some? && r.value in members && name(r.value) == Upper(value.value)
    ensures value.None? ==> r.Failure?
  {
    match value
    case None => Failure
    case Some(s) =>
      match Parse(members, name, Upper(s))
      case None => Failure
      case Some(m) => Success(m)
  }

  /** A present value parses to a member iff its upper-cased text is that
      member's name. */
  lemma ParseTagExact<T>(members: seq<T>, name: T -> string, s: string, m: T)
    requires m in members
    requires forall a, b :: a in members && b in members && name(a) == name(b) ==> a == b
    ensures ParseTag(members, name, Some(s)) == Success(m) <==> Upper(s) == name(m)
  {
    if Upper(s) == name(m) {
      ParseOwnName(members, name, m);
    }
  }

  /** Feature values are upper-cased before the lookup, so "Nom", "nom" and
      "NOM" all give NOM; any other value fails. */
  lemma FeatureValueLookup(s: string)
    ensures forall c: Case :: ParseTag(AllCases, CaseName, Some(s)) == Success(c) <==> Upper(s) == c.Name()
    ensures forall n: Number :: ParseTag(AllNumbers, NumberName, Some(s)) == Success(n) <==> Upper(s) == n.Name()
    ensures forall g: Gender :: ParseTag(AllGenders, GenderName, Some(s)) == Success(g) <==> Upper(s) == g.Name()
    ensures forall t: Tense :: ParseTag(AllTenses, TenseName, Some(s)) == Success(t) <==> Upper(s) == t.Name()
  {
    CategorySizes();
    LabelsAndNamesInjective();
    forall c: Case ensures ParseTag(AllCases, CaseName, Some(s)) == Success(c) <==> Upper(s) == c.Name() {
      ParseTagExact(AllCases, CaseName, s, c);
    }
    forall n: Number ensures ParseTag(AllNumbers, NumberName, Some(s)) == Success(n) <==> Upper(s) == n.Name() {
      ParseTagExact(AllNumbers, NumberName, s, n);
    }
    forall g: Gender ensures ParseTag(AllGenders, GenderName, Some(s)) == Success(g) <==> Upper(s) == g.Name() {
      ParseTagExact(AllGenders, GenderName, s, g);
    }
    forall t: Tense ensures ParseTag(AllTenses, TenseName, Some(s)) == Success(t) <==> Upper(s) == t.Name() {
      ParseTagExact(AllTenses, TenseName, s, t);
    }
  }

  /** The digit that stands for a person in the FEATS column. */
  function PersonValue(p: Person): string
  {
    match p
    case FIRST => "1"
    case SECOND => "2"
    case THIRD => "3"
  }

  /** `parse_person`: exactly "1", "2" and "3" are persons; anything else,
      a missing value included, is a failure. */
  function ParsePerson(person: Option<string>): (r: Result<Person>)
    ensures r.Success? <==> person == Some("1") || person == Some("2") || person == Some("3")
    ensures r.Success? ==> PersonValue(r.value) == person.value
  {
    match person
    case Some("1") => Success(FIRST)
    case Some("2") => Success(SECOND)
    case Some("3") => Success(THIRD)
    case _ => Failure
  }

  // ------------------------------------------------------ pos_tags_to_dict

  /** The key of a FEATS segment: its text before the first "=". */
  function SegmentKey(seg: string): string
  {
    Split(seg, '=')[0]
  }

  /** A segment the comprehension can take apart: empty (skipped) or holding an "=". */
  predicate WellFormedSegment(seg: string)
  {
    seg == "" || |Split(seg, '=')| >= 2
  }

  /** The value of a FEATS segment: its text between the first and second "=". */
  function SegmentValue(seg: string): string
    requires |Split(seg, '=')| >= 2
  {
    Split(seg, '=')[1]
  }

  /** Every segment is empty or holds an "=". */
  predicate AllWellFormed(segs: seq<string>)
  {
    forall i :: 0 <= i < |segs| ==> WellFormedSegment(segs[i])
  }

  /** The dict comprehension over the segments, in order: empty segments are
      skipped, a segment without "=" raises, and a repeated key keeps its first
      position but takes the later value. */
  function CollectTags(segs: seq<string>, acc: Dict): Result<Dict>
  {
    if segs == [] then Success(acc)
    else if segs[0] == "" then CollectTags(segs[1..], acc)
    else if |Split(segs[0], '=')| < 2 then Failure
    else CollectTags(segs[1..], Put(acc, SegmentKey(segs[0]), SegmentValue(segs[0])))
  }

  /** `pos_tags_to_dict`: the FEATS string split on "|" and collected. */
  function PosTagsToDict(morph: string): Result<Dict>
  {
    CollectTags(Split(morph, '|'), [])
  }

  /** Reference reading of the comprehension: the value of the last non-empty
      segment whose key is `k`. */
  function LastTagValue(segs: seq<string>, k: string): Option<string>
    requires AllWellFormed(segs)
  {
    if segs == [] then None
    else
      var later := LastTagValue(segs[1..], k);
      if later.Some? then later
      else if segs[0] != "" && SegmentKey(segs[0]) == k then
        assert WellFormedSegment(segs[0]);
        Some(SegmentValue(segs[0]))
      else None
  }

  lemma {:induction false} CollectTagsFailure(segs: seq<string>, acc: Dict)
    ensures CollectTags(segs, acc).Failure? <==> !AllWellFormed(segs)
  {
    if segs != [] {
      if segs[0] == "" {
        CollectTagsFailure(segs[1..], acc);
      } else if |Split(segs[0], '=')| >= 2 {
        CollectTagsFailure(segs[1..], Put(acc, SegmentKey(segs[0]), SegmentValue(segs[0])));
      }
      if !AllWellFormed(segs[1..]) {
        var i :| 0 <= i < |segs[1..]| && !WellFormedSegment(segs[1..][i]);
        assert !WellFormedSegment(segs[i + 1]);
      }
      if !AllWellFormed(segs) {
        var i :| 0 <= i < |segs| && !WellFormedSegment(segs[i]);
        if i > 0 { assert !WellFormedSegment(segs[1..][i - 1]); }
      }
    }
  }

  lemma {:induction false} CollectTagsLookup(segs: seq<string>, acc: Dict, k: string)
    requires AllWellFormed(segs)
    ensures CollectTags(segs, acc).Success?
    ensures Get(CollectTags(segs, acc).value, k)
         == if LastTagValue(segs, k).Some? then LastTagValue(segs, k) else Get(acc, k)
  {
    if segs != [] {
      if segs[0] == "" {
        CollectTagsLookup(segs[1..], acc, k);
      } else {
        CollectTagsLookup(segs[1..], Put(acc, SegmentKey(segs[0]), SegmentValue(segs[0])), k);
      }
    }
  }

  /** `pos_tags_to_dict` fails exactly when some non-empty segment has no "=". */
  lemma PosTagsToDictFailure(morph: string)
    ensures PosTagsToDict(morph).Failure? <==> !AllWellFormed(Split(morph, '|'))
  {
    CollectTagsFailure(Split(morph, '|'), []);
  }

  /** On success, each key maps to the value of the last segment carrying it,
      and a key no segment carries is absent. */
  lemma PosTagsToDictLookup(morph: string, k: string)
    requires PosTagsToDict(morph).Success?
    ensures AllWellFormed(Split(morph, '|'))
    ensures Get(PosTagsToDict(morph).value, k) == LastTagValue(Split(morph, '|'), k)
  {
    PosTagsToDictFailure(morph);
    CollectTagsLookup(Split(morph, '|'), [], k);
  }

  /** The empty FEATS string gives the empty dict. */
  lemma PosTagsToDictEmpty()
    ensures PosTagsToDict("") == Success([])
  {
    assert Split("", '|') == [""];
  }

  // ------------------------------------------------- feature_set_from_dict

  /** `feature_set_from_dict`: the shape is chosen by the POS alone; the three
      tags that shape needs must be present and parse. */
  function FeatureSetFromDict(tags: Dict, upos: UPOS): (r: Result<Option<FeatureSet>>)
    ensures !upos.IsNounLike() && !upos.IsVerbLike() ==> r == Success(None)
    ensures upos.IsNounLike() ==> r.Failure? || (r.value.Some? && r.value.value.NounFeatureSet?)
    ensures upos.IsVerbLike() ==> r.Failure? || (r.value.Some? && r.value.value.VerbFeatureSet?)
    ensures upos.IsNounLike() && (Get(tags, "Case").None? || Get(tags, "Number").None? || Get(tags, "Gender").None?)
            ==> r.Failure?
    ensures upos.IsVerbLike() && (Get(tags, "Tense").None? || Get(tags, "Number").None? || Get(tags, "Person").None?)
            ==> r.Failure?
    ensures r.Success? && r.value.Some? && r.value.value.NounFeatureSet? ==>
              && Get(tags, "Case").Some? && Upper(Get(tags, "Case").value) == r.value.value.grammaticalCase.Name()
              && Get(tags, "Number").Some? && Upper(Get(tags, "Number").value) == r.value.value.number.Name()
              && Get(tags, "Gender").Some? && Upper(Get(tags, "Gender").value) == r.value.value.gender.Name()
    ensures r.Success? && r.value.Some? && r.value.value.VerbFeatureSet? ==>
              && Get(tags, "Tense").Some? && Upper(Get(tags, "Tense").value) == r.value.value.tense.Name()
              && Get(tags, "Number").Some? && Upper(Get(tags, "Number").value) == r.value.value.number.Name()
              && Get(tags, "Person") == Some(PersonValue(r.value.value.person))
  {
    if upos.IsNounLike() then
      match (ParseTag(AllCases, CaseName, Get(tags, "Case")),
             ParseTag(AllNumbers, NumberName, Get(tags, "Number")),
             ParseTag(AllGenders, GenderName, Get(tags, "Gender")))
      case (Success(c), Success(n), Success(g)) => Success(Some(NounFeatureSet(c, n, g)))
      case _ => Failure
    else if upos.IsVerbLike() then
      match (ParseTag(AllTenses, TenseName, Get(tags, "Tense")),
             ParseTag(AllNumbers, NumberName, Get(tags, "Number")),
             ParsePerson(Get(tags, "Person")))
      case (Success(t), Success(n), Success(p)) => Success(Some(VerbFeatureSet(p, n, t)))
      case _ => Failure
    else
      Success(None)
  }

  /** The three tag keys each shape reads. */
  function RequiredKeys(upos: UPOS): seq<string>
  {
    if upos.IsNounLike() then ["Case", "Number", "Gender"]
    else if upos.IsVerbLike() then ["Tense", "Number", "Person"]
    else []
  }

  /** Tags other than the required ones are ignored. */
  lemma OtherTagsIgnored(tags1: Dict, tags2: Dict, upos: UPOS)
    requires forall k :: k in RequiredKeys(upos) ==> Get(tags1, k) == Get(tags2, k)
    ensures FeatureSetFromDict(tags1, upos) == FeatureSetFromDict(tags2, upos)
  {
    var ks := RequiredKeys(upos);
    if upos.IsNounLike() {
      assert ks[0] in ks && ks[1] in ks && ks[2] in ks;
      assert Get(tags1, "Case") == Get(tags2, "Case");
      assert Get(tags1, "Number") == Get(tags2, "Number");
      assert Get(tags1, "Gender") == Get(tags2, "Gender");
    } else if upos.IsVerbLike() {
      assert ks[0] in ks && ks[1] in ks && ks[2] in ks;
      assert Get(tags1, "Tense") == Get(tags2, "Tense");
      assert Get(tags1, "Number") == Get(tags2, "Number");
      assert Get(tags1, "Person") == Get(tags2, "Person");
    }
  }

  /** The FEATS tags of a feature set: each category under its UD name, each
      value as the capitalised member name ("Nom", "Sing"), the person as its digit. */
  function TagsOf(fs: FeatureSet): Dict
  {
    match fs
    case NounFeatureSet(c, n, g) =>
      [("Case", Capitalize(c.Name())), ("Number", Capitalize(n.Name())), ("Gender", Capitalize(g.Name()))]
    case VerbFeatureSet(p, n, t) =>
      [("Tense", Capitalize(t.Name())), ("Number", Capitalize(n.Name())), ("Person", PersonValue(p))]
  }

  /** Member names are upper-case ASCII words. */
  lemma NamesAllUpper(c: Case, n: Number, g: Gender, t: Tense)
    ensures AllUpper(c.Name()) && AllUpper(n.Name()) && AllUpper(g.Name()) && AllUpper(t.Name())
  {
    CaseNameUpper(c);
    NumberNameUpper(n);
    GenderNameUpper(g);
    TenseNameUpper(t);
  }

  lemma CaseNameUpper(c: Case)
    ensures AllUpper(c.Name())
  {
    match c
    case NOM => case ACC => case DAT => case GEN =>
  }

  lemma NumberNameUpper(n: Number)
    ensures AllUpper(n.Name())
  {
    match n
    case SING => case PLUR =>
  }

  lemma GenderNameUpper(g: Gender)
    ensures AllUpper(g.Name())
  {
    match g
    case MASC => case FEM => case NEUT =>
  }

  lemma TenseNameUpper(t: Tense)
    ensures AllUpper(t.Name())
  {
    match t
    case PRES => case PAST => case IMP => case FUT => case PQP =>
  }

  /** Each capitalised member name ("Nom", "Sing", "Masc", "Pres") parses
      back to its member. */
  lemma CaseTagParses(c: Case)
    ensures ParseTag(AllCases, CaseName, Some(Capitalize(c.Name()))) == Success(c)
  {
    CaseNameUpper(c);
    UpperCapitalize(c.Name());
    FeatureValueLookup(Capitalize(c.Name()));
  }

  lemma NumberTagParses(n: Number)
    ensures ParseTag(AllNumbers, NumberName, Some(Capitalize(n.Name()))) == Success(n)
  {
    NumberNameUpper(n);
    UpperCapitalize(n.Name());
    FeatureValueLookup(Capitalize(n.Name()));
  }

  lemma GenderTagParses(g: Gender)
    ensures ParseTag(AllGenders, GenderName, Some(Capitalize(g.Name()))) == Success(g)
  {
    GenderNameUpper(g);
    UpperCapitalize(g.Name());
    FeatureValueLookup(Capitalize(g.Name()));
  }

  lemma TenseTagParses(t: Tense)
    ensures ParseTag(AllTenses, TenseName, Some(Capitalize(t.Name()))) == Success(t)
  {
    TenseNameUpper(t);
    UpperCapitalize(t.Name());
    FeatureValueLookup(Capitalize(t.Name()));
  }

  /** When the three noun tags parse, a noun-like POS gets exactly that noun shape. */
  lemma NounShapeFromTags(tags: Dict, c: Case, n: Number, g: Gender, upos: UPOS)
    requires upos.IsNounLike()
    requires ParseTag(AllCases, CaseName, Get(tags, "Case")) == Success(c)
    requires ParseTag(AllNumbers, NumberName, Get(tags, "Number")) == Success(n)
    requires ParseTag(AllGenders, GenderName, Get(tags, "Gender")) == Success(g)
    ensures FeatureSetFromDict(tags, upos) == Success(Some(NounFeatureSet(c, n, g)))
  {
  }

  /** When the three verb tags parse, a verb-like POS gets exactly that verb shape. */
  lemma VerbShapeFromTags(tags: Dict, p: Person, n: Number, t: Tense, upos: UPOS)
    requires upos.IsVerbLike()
    requires ParseTag(AllTenses, TenseName, Get(tags, "Tense")) == Success(t)
    requires ParseTag(AllNumbers, NumberName, Get(tags, "Number")) == Success(n)
    requires ParsePerson(Get(tags, "Person")) == Success(p)
    ensures FeatureSetFromDict(tags, upos) == Success(Some(VerbFeatureSet(p, n, t)))
  {
  }

  /** Round trip, nominal shape: the tags of a noun feature set map back to
      it under any noun-like POS. */
  lemma NounFeatureSetRoundTrip(c: Case, n: Number, g: Gender, upos: UPOS)
    requires upos.IsNounLike()
    ensures FeatureSetFromDict(TagsOf(NounFeatureSet(c, n, g)), upos) == Success(Some(NounFeatureSet(c, n, g)))
  {
    var tags := TagsOf(NounFeatureSet(c, n, g));
    CaseTagParses(c);
    NumberTagParses(n);
    GenderTagParses(g);
    GetOfThree("Case", Capitalize(c.Name()), "Number", Capitalize(n.Name()), "Gender", Capitalize(g.Name()));
    NounShapeFromTags(tags, c, n, g, upos);
  }

  /** Round trip, verbal shape: the tags of a verb feature set map back to
      it under any verb-like POS. */
  lemma VerbFeatureSetRoundTrip(p: Person, n: Number, t: Tense, upos: UPOS)
    requires upos.IsVerbLike()
    ensures FeatureSetFromDict(TagsOf(VerbFeatureSet(p, n, t)), upos) == Success(Some(VerbFeatureSet(p, n, t)))
  {
    var tags := TagsOf(VerbFeatureSet(p, n, t));
    NumberTagParses(n);
    TenseTagParses(t);
    GetOfThree("Tense", Capitalize(t.Name()), "Number", Capitalize(n.Name()), "Person", PersonValue(p));
    PersonParses(p);
    VerbShapeFromTags(tags, p, n, t, upos);
  }

  /** The digit of a person parses back to it. */
  lemma PersonParses(p: Person)
    ensures ParsePerson(Some(PersonValue(p))) == Success(p)
  {
    match p
    case FIRST =>
    case SECOND =>
    case THIRD =>
  }

  // ------------------------------------------------------ from_spacy_token

  /** `map_feature_set`: tags from the FEATS string, shape from the POS. An
      unknown POS fails here too (`None.is_noun_like()`). */
  function MapFeatureSet(w: Word): Result<Option<FeatureSet>>
  {
    match MapUpos(w)
    case None => Failure
    case Some(u) =>
      match PosTagsToDict(w.morph)
      case Failure => Failure
      case Success(tags) => FeatureSetFromDict(tags, u)
  }

  /** Mapping the feature set fails exactly when the POS is unknown, the
      FEATS string does not split into tags, or the tags do not make a
      feature set of the POS's shape; otherwise it is the feature set those
      tags determine. */
  lemma MapFeatureSetComposes(w: Word)
    ensures MapFeatureSet(w).Failure? <==>
              || MapUpos(w).None? || PosTagsToDict(w.morph).Failure?
              || FeatureSetFromDict(PosTagsToDict(w.morph).value, MapUpos(w).value).Failure?
    ensures MapFeatureSet(w).Success? ==>
              MapFeatureSet(w) == FeatureSetFromDict(PosTagsToDict(w.morph).value, MapUpos(w).value)
  {
  }

  /** The token carries the POS its word's tag names and the feature set
      that the word's FEATS tags determine under that POS. */
  predicate TagsDetermine(w: Word, t: Token)
  {
    && MapUpos(w) == Some(t.upos)
    && PosTagsToDict(w.morph).Success?
    && FeatureSetFromDict(PosTagsToDict(w.morph).value, t.upos).Success?
    && t.featureSet == FeatureSetFromDict(PosTagsToDict(w.morph).value, t.upos).value
  }

  /** `from_spacy_token`: a token with the word's text and lemma, its POS and
      feature set, and no ancestor yet. */
  function FromSpacyToken(w: Word): (r: Result<Token>)
    ensures r.Success? <==> MapUpos(w).Some? && MapFeatureSet(w).Success?
    ensures r.Success? ==>
              && r.value.text == w.text && r.value.lemmaForm == w.lemmaForm
              && r.value.upos.Name() == w.pos
              && r.value.ancestor.None?
              && ShapeAgrees(r.value)
  {
    match (MapUpos(w), MapFeatureSet(w))
    case (Some(u), Success(fs)) => Success(Token(w.text, w.lemmaForm, u, fs, None))
    case _ => Failure
  }

  /** A mapped token carries the POS its word's tag names and exactly the
      feature set the word's FEATS tags determine under that POS. */
  lemma FromSpacyTokenFeatures(w: Word)
    requires FromSpacyToken(w).Success?
    ensures TagsDetermine(w, FromSpacyToken(w).value)
  {
    MapFeatureSetComposes(w);
  }

  /** A word whose POS is neither noun-like nor verb-like maps without a
      feature set whatever its FEATS string holds, as long as that string
      splits into well-formed segments. */
  lemma ClosedClassWordHasNoFeatureSet(w: Word, u: UPOS)
    requires MapUpos(w) == Some(u) && !u.IsNounLike() && !u.IsVerbLike()
    requires PosTagsToDict(w.morph).Success?
    ensures FromSpacyToken(w) == Success(Token(w.text, w.lemmaForm, u, None, None))
  {
  }

  /** The list comprehension over the sentence: every word mapped, in order;
      one failing word fails the whole sentence. */
  function MapTokens(doc: seq<Word>): (r: Result<seq<Token>>)
    ensures r.Success? <==> forall i :: 0 <= i < |doc| ==> FromSpacyToken(doc[i]).Success?
    ensures r.Success? ==> (|r.value| == |doc| &&
              forall i :: 0 <= i < |doc| ==> r.value[i] == FromSpacyToken(doc[i]).value)
  {
    if doc == [] then Success([])
    else
      match FromSpacyToken(doc[0])
      case Failure => Failure
      case Success(t) =>
        var rest := doc[1..];
        assert forall i :: 1 <= i < |doc| ==> rest[i - 1] == doc[i];
        match MapTokens(rest)
        case Failure => Failure
        case Success(ts) => Success([t] + ts)
  }

  // ---------------------------------------- enrich_ll_tokens_with_ancestors

  /** Position `j` holds the last token whose text is `t`. */
  predicate IsLastWithText(tokens: seq<Token>, t: string, j: nat)
  {
    j < |tokens| && tokens[j].text == t && forall j' :: j < j' < |tokens| ==> tokens[j'].text != t
  }

  /** `{token.text: token for token in ll_tokens}`: every text of the list is
      a key, mapped to the position of the LAST token with that text. */
  function IndexByText(tokens: seq<Token>): (m: map<string, nat>)
    ensures forall j :: 0 <= j < |tokens| ==> tokens[j].text in m
    ensures forall t :: t in m ==> IsLastWithText(tokens, t, m[t])
  {
    if tokens == [] then map[]
    else
      var last := |tokens| - 1;
      var prefix := tokens[..last];
      var m0 := IndexByText(prefix);
      var m := m0[tokens[last].text := last];
      assert forall t :: t in m0 && t != tokens[last].text ==> IsLastWithText(tokens, t, m0[t]) by {
        forall t | t in m0 && t != tokens[last].text ensures IsLastWithText(tokens, t, m0[t]) {
          assert IsLastWithText(prefix, t, m0[t]);
        }
      }
      assert forall j :: 0 <= j < last ==> tokens[j].text in m by {
        forall j | 0 <= j < last ensures tokens[j].text in m {
          assert prefix[j].text in m0;
        }
      }
      m
  }

  /** `ll_tokens_by_text.get(ancestor.text)` for the word at position `h`. */
  function LookUpByText(byText: map<string, nat>, doc: seq<Word>, h: nat): Option<nat>
    requires h < |doc|
  {
    if doc[h].text in byText then Some(byText[doc[h].text]) else None
  }

  /** The token of the word at position `i` after the ancestor pass: a word
      with a head gets the token found under the head's text (None if no
      token has that text); a root word is unchanged. */
  function Resolved(t: Token, byText: map<string, nat>, doc: seq<Word>, i: nat): Token
    requires HeadsInRange(doc) && i < |doc|
  {
    if doc[i].head.Some? then t.(ancestor := LookUpByText(byText, doc, doc[i].head.value)) else t
  }

  /** The tokens after the ancestor pass; every token past the end of the
      shorter list is unchanged. */
  function Enriched(tokens: seq<Token>, doc: seq<Word>): seq<Token>
    requires HeadsInRange(doc)
  {
    var byText := IndexByText(tokens);
    seq(|tokens|, i requires 0 <= i < |tokens| =>
      if i < |doc| then Resolved(tokens[i], byText, doc, i) else tokens[i])
  }

  /** `enrich_ll_tokens_with_ancestors`, in place on the token list. */
  method EnrichWithAncestors(tokens: array<Token>, doc: seq<Word>)
    requires HeadsInRange(doc)
    modifies tokens
    ensures tokens[..] == Enriched(old(tokens[..]), doc)
  {
    ghost var before := tokens[..];
    var byText := IndexByText(tokens[..]);
    // zip stops at the shorter of the two lists
    var n := if tokens.Length < |doc| then tokens.Length else |doc|;
    var i := 0;
    while i < n
      invariant 0 <= i <= n
      invariant forall k :: 0 <= k < i ==> tokens[k] == Resolved(before[k], byText, doc, k)
      invariant forall k :: i <= k < tokens.Length ==> tokens[k] == before[k]
    {
      assert tokens[i] == before[i];
      tokens[i] := Resolved(tokens[i], byText, doc, i);
      i := i + 1;
    }
    EnrichedIs(before, doc, tokens[..]);
  }

  /** A list that holds, at every position, the token of the ancestor pass
      there is the result of the pass. */
  lemma EnrichedIs(tokens: seq<Token>, doc: seq<Word>, after: seq<Token>)
    requires HeadsInRange(doc) && |after| == |tokens|
    requires forall k :: 0 <= k < |tokens| ==>
               after[k] == if k < |doc| then Resolved(tokens[k], IndexByText(tokens), doc, k) else tokens[k]
    ensures after == Enriched(tokens, doc)
  {
  }

  /** The ancestor pass keeps every token in place and changes nothing but
      ancestors, and only those of words that have a head. */
  lemma EnrichedChangesOnlyAncestors(tokens: seq<Token>, doc: seq<Word>)
    requires HeadsInRange(doc)
    ensures |Enriched(tokens, doc)| == |tokens|
    ensures forall i :: 0 <= i < |tokens| ==>
              Enriched(tokens, doc)[i].(ancestor := tokens[i].ancestor) == tokens[i]
    ensures forall i :: 0 <= i < |tokens| && (i >= |doc| || doc[i].head.None?) ==>
              Enriched(tokens, doc)[i] == tokens[i]
  {
  }

  /** A word whose head has text t gets the last token with text t, and no
      ancestor when no token has that text. */
  lemma EnrichedResolvesByLastText(tokens: seq<Token>, doc: seq<Word>, i: nat)
    requires HeadsInRange(doc)
    requires i < |tokens| && i < |doc| && doc[i].head.Some?
    ensures var a := Enriched(tokens, doc)[i].ancestor;
            var t := doc[doc[i].head.value].text;
            && (a.None? <==> forall j :: 0 <= j < |tokens| ==> tokens[j].text != t)
            && (a.Some? ==> a.value < |tokens| && tokens[a.value].text == t
                            && forall j :: a.value < j < |tokens| ==> tokens[j].text != t)
  {
  }

  /** `from_spacy_doc`: map every word, then run the ancestor pass. */
  method FromSpacyDoc(doc: seq<Word>) returns (r: Result<seq<Token>>)
    requires HeadsInRange(doc)
    ensures r.Failure? <==> MapTokens(doc).Failure?
    ensures r.Success? ==> r.value == Enriched(MapTokens(doc).value, doc)
    ensures r.Success? ==> |r.value| == |doc| && AncestorsInRange(r.value)
  {
    var mapped := MapTokens(doc);
    if mapped.Failure? {
      return Failure;
    }
    var tokens := new Token[|mapped.value|](i requires 0 <= i < |mapped.value| => mapped.value[i]);
    assert tokens[..] == mapped.value;
    EnrichWithAncestors(tokens, doc);
    SentenceAncestors(doc);
    r := Success(tokens[..]);
  }

  /** The mapped tokens line up with the words: same text and lemma, a shape
      that agrees with the POS, and no ancestor yet. */
  lemma MappedTokensAligned(doc: seq<Word>)
    requires MapTokens(doc).Success?
    ensures |MapTokens(doc).value| == |doc|
    ensures forall i :: 0 <= i < |doc| ==>
              var t := MapTokens(doc).value[i];
              t.text == doc[i].text && t.lemmaForm == doc[i].lemmaForm && ShapeAgrees(t) && t.ancestor.None?
    ensures forall i :: 0 <= i < |doc| ==> TagsDetermine(doc[i], MapTokens(doc).value[i])
  {
    forall i | 0 <= i < |doc|
      ensures var t := MapTokens(doc).value[i];
              t.text == doc[i].text && t.lemmaForm == doc[i].lemmaForm && ShapeAgrees(t) && t.ancestor.None?
      ensures TagsDetermine(doc[i], MapTokens(doc).value[i])
    {
      assert FromSpacyToken(doc[i]).Success?;
      FromSpacyTokenFeatures(doc[i]);
    }
  }


  /** The ancestor pass over tokens aligned with their words: roots keep
      their ancestor; a word with head h gets the last token whose text is h's
      text, which lies at or after h; when the texts are pairwise distinct
      that is h itself. */
  lemma AlignedAncestors(tokens: seq<Token>, doc: seq<Word>)
    requires HeadsInRange(doc) && |tokens| == |doc|
    requires forall i :: 0 <= i < |doc| ==> tokens[i].text == doc[i].text
    ensures var r := Enriched(tokens, doc);
      && |r| == |doc|
      && (forall i :: 0 <= i < |doc| && doc[i].head.None? ==> r[i] == tokens[i])
      && (forall i :: 0 <= i < |doc| && doc[i].head.Some? ==>
            && r[i].ancestor.Some?
            && doc[i].head.value <= r[i].ancestor.value < |doc|
            && doc[r[i].ancestor.value].text == doc[doc[i].head.value].text)
      && ((forall j, k :: 0 <= j < k < |doc| ==> doc[j].text != doc[k].text) ==>
            forall i :: 0 <= i < |doc| && doc[i].head.Some? ==> r[i].ancestor == doc[i].head)
  {
    var r := Enriched(tokens, doc);
    forall i | 0 <= i < |doc| && doc[i].head.Some?
      ensures r[i].ancestor.Some? && doc[i].head.value <= r[i].ancestor.value < |doc|
      ensures doc[r[i].ancestor.value].text == doc[doc[i].head.value].text
    {
      var h := doc[i].head.value;
      assert tokens[h].text == doc[h].text;
      EnrichedResolvesByLastText(tokens, doc, i);
    }
  }

  /** Over a whole sentence: one token per word with the word's text and
      lemma and a shape agreeing with its POS; a root has no ancestor; every
      other word has an ancestor in the sentence. */
  lemma SentenceAncestors(doc: seq<Word>)
    requires HeadsInRange(doc) && MapTokens(doc).Success?
    ensures var r := Enriched(MapTokens(doc).value, doc);
      && |r| == |doc| && AncestorsInRange(r)
      && forall i :: 0 <= i < |doc| ==>
            && r[i].text == doc[i].text && r[i].lemmaForm == doc[i].lemmaForm && ShapeAgrees(r[i])
            && TagsDetermine(doc[i], r[i])
            && (r[i].ancestor.None? <==> doc[i].head.None?)
  {
    var ts := MapTokens(doc).value;
    var r := Enriched(ts, doc);
    forall i | 0 <= i < |doc|
      ensures r[i].text == doc[i].text && r[i].lemmaForm == doc[i].lemmaForm && ShapeAgrees(r[i])
      ensures TagsDetermine(doc[i], r[i])
      ensures r[i].ancestor.None? <==> doc[i].head.None?
      ensures r[i].ancestor.Some? ==> r[i].ancestor.value < |r|
    {
      SentenceAncestorAt(doc, i);
    }
  }

  /** One word of the sentence after `from_spacy_doc`. */
  lemma SentenceAncestorAt(doc: seq<Word>, i: nat)
    requires HeadsInRange(doc) && MapTokens(doc).Success? && i < |doc|
    ensures var r := Enriched(MapTokens(doc).value, doc);
      && |r| == |doc|
      && r[i].text == doc[i].text && r[i].lemmaForm == doc[i].lemmaForm && ShapeAgrees(r[i])
      && TagsDetermine(doc[i], r[i])
      && (r[i].ancestor.None? <==> doc[i].head.None?)
      && (r[i].ancestor.Some? ==> r[i].ancestor.value < |doc|)
  {
    var ts := MapTokens(doc).value;
    var byText := IndexByText(ts);
    assert Enriched(ts, doc)[i] == Resolved(ts[i], byText, doc, i);
    assert FromSpacyToken(doc[i]).Success?;
    FromSpacyTokenFeatures(doc[i]);
    if doc[i].head.Some? {
      var h := doc[i].head.value;
      assert FromSpacyToken(doc[h]).Success?;
      assert ts[h].text == doc[h].text;
      assert doc[h].text in byText;
    }
  }

  /** Resolution is by surface text, not position: in "Das Kind sieht das Kind"
      the first "Das" has the first "Kind" as its head but is given the last one. */
  lemma AncestorByTextNotPosition()
    ensures var doc := [Word("Das", "der", "DET", "", Some(1)), Word("Kind", "Kind", "NOUN", "", Some(2)),
                        Word("sieht", "sehen", "VERB", "", None), Word("das", "der", "DET", "", Some(4)),
                        Word("Kind", "Kind", "NOUN", "", Some(2))];
            var tokens := seq(5, i requires 0 <= i < 5 => Token(doc[i].text, doc[i].lemmaForm, X, None, None));
            HeadsInRange(doc) && doc[0].head == Some(1) && Enriched(tokens, doc)[0].ancestor == Some(4)
  {
    var doc := [Word("Das", "der", "DET", "", Some(1)), Word("Kind", "Kind", "NOUN", "", Some(2)),
                Word("sieht", "sehen", "VERB", "", None), Word("das", "der", "DET", "", Some(4)),
                Word("Kind", "Kind", "NOUN", "", Some(2))];
    var tokens := seq(5, i requires 0 <= i < 5 => Token(doc[i].text, doc[i].lemmaForm, X, None, None));
    EnrichedResolvesByLastText(tokens, doc, 0);
    assert tokens[4].text == "Kind";
  }
}
