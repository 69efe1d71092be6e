# lingolift token mapping, modelled in Dafny

This project models the token layer of lingolift-shared. An NLP pipeline hands
over, for every word of a German sentence, its text, lemma, Universal POS tag,
Universal Features string (the FEATS column, such as
`Case=Nom|Gender=Masc|Number=Sing`) and its syntactic head. The mapper turns
each word into a typed `Token`:

- the POS tag is looked up in the closed `UPOS` enumeration;
- the FEATS string is split into a tag dictionary;
- the POS decides the shape of the feature set. Nouns, proper nouns,
  pronouns, determiners and adjectives get case, number and gender. Verbs and
  auxiliaries get person, number and tense. Every other POS gets none.

A second, in-place pass over the token list gives each word with a head its
depth-1 ancestor.

Next to the mapper the model covers:

- the feature enumerations and their rendering ("Accusative Singular
  Masculine");
- the conversion of tags into a legible phrase through the description table;
- the older `SyntacticalAnalysis` record and its `; `-joined rendering.

Modules, one file each:

- `wrappers.dfy`: `Option` and `Result`. A single `Failure` stands for every
  exception the Python code can raise.
- `strings.dfy`: Python's `join`, `split` on one character, and ASCII
  `upper`/`capitalize`.
- `dicts.dfy`: Python's insertion-ordered `dict[str, str]` as a sequence of
  items with distinct keys, with `get` and item assignment.
- `features.dfy`: `feature.py`.
- `upos.dfy`: `upos.py`.
- `tokens.dfy`: `token.py`.
- `mapper.dfy`: `mapper.py`.
- `universal_features.dfy`: `universal_features.py`.
- `syntactical.dfy`: `syntactical_analysis.py`.
- `scenarios.dfy`: the sentence "Der Tisch hat vier eckige Beine." and what
  the mapper makes of its words.

### Readings of the source

- **Ancestors are resolved by text.** The docstring of
  `enrich_ll_tokens_with_ancestors` assumes both token lists share one
  order (`shared/model/token/mapper.py:39`), and the comment at
  `shared/model/token/mapper.py:47` says that order could be used for the
  lookup. The test at `test/model/token/test_token_mapper.py:95-100` checks
  ancestors by position ("Der" -> "Tisch", "eckige" -> "Beine"). The code
  itself builds a dictionary from token text to token
  (`shared/model/token/mapper.py:42`), so the last token with a given text
  wins. The model follows the code: a word whose head's text occurs twice
  gets the later token. `Mapper.AncestorByTextNotPosition` exhibits this on
  "Das Kind sieht das Kind". When all texts of a sentence differ, the text
  lookup and the position lookup agree (`Mapper.AlignedAncestors`).
- **Heads lie inside the sentence.** The code reads heads from a parsed
  document (`next(spacy_token.ancestors, None)` at
  `shared/model/token/mapper.py:45`), whose heads are always tokens of the
  same document. The model states this as a precondition (`HeadsInRange`)
  rather than an error path.
- **Token rendering.** `shared/model/token/token.py` defines no rendering of
  a token, so none is modelled. The rendering that does exist,
  `SyntacticalAnalysis.stringify`, is modelled as written: its lemma phrase
  appears whenever the lemma is non-empty, not only when the lemma differs
  from the text.

A token's ancestor is a reference to another token of the same list in the
source. In the model it is the index of that token (`Option<nat>`), which
keeps the aliasing: the ancestor is the token object in the list, not a copy.

## Model

| member | source | states |
|---|---|---|
| Dicts.Get | shared/model/token/mapper.py:91-99 | `tags.get(k)` is present exactly when k is a key, and then it is the value stored with k |
| Dicts.Put | shared/model/token/mapper.py:119 | assigning `d[k] = v` makes k map to v and leaves every other key's value alone. A key already present keeps its position; a new key is appended |
| Dicts.GetAt | shared/model/token/mapper.py:119 | in a dict with distinct keys, looking up an item's key finds that item's value |
| Strings.Split | shared/model/token/mapper.py:118-119 | `split` yields at least one piece, no piece contains the separator, and joining the pieces with it gives the input back |
| Strings.SplitJoin | shared/model/syntactical_analysis.py:20 | splitting the `join` of separator-free parts gives the parts back |
| Strings.UpperCapitalize | shared/model/token/mapper.py:91-98 | upper-casing a capitalised all-upper-case name gives the name back |
| Features.CategorySizes | shared/model/token/feature.py:50-79 | Case, Gender, Number, Person and Tense have 4, 3, 2, 3 and 5 members, each listed exactly once |
| Features.LabelsAndNamesInjective | shared/model/token/feature.py:50-79 | different members of a category have different names and different values |
| Features.CapitalizedCase | shared/model/token/feature.py:28-29 | each capitalised case value is the expected word ("Nominative" …), and the value holds no space |
| Features.CapitalizedGender | shared/model/token/feature.py:28-29 | each capitalised gender value is the expected word ("Masculine" …), and the value holds no space |
| Features.CapitalizedNumber | shared/model/token/feature.py:28-29 | each capitalised number value is "Singular" or "Plural" |
| Features.CapitalizedPerson | shared/model/token/feature.py:42-43 | the person values capitalise to "First person", "Second person" and "Third person" |
| Features.CapitalizedTense | shared/model/token/feature.py:42-43 | tense values are already capitalised, so `capitalize` leaves them unchanged |
| Features.NounRenderingWords | shared/model/token/feature.py:28-29 | the string of a noun feature set splits on spaces into exactly the three capitalised values: case, then number, then gender |
| Features.NounRenderingExample | test/model/token/test_feature.py:5-9 | accusative singular masculine renders as "Accusative Singular Masculine" |
| Features.VerbRenderingExample | test/model/token/test_feature.py:12-16 | first person singular past renders as "First person Singular Past tense" |
| Upos.UposCount | shared/model/token/upos.py:4-32 | there are 17 POS members, each listed exactly once |
| Upos.LabelsAndNamesDistinct | shared/model/token/upos.py:4-32 | different POS members have different names and different values |
| Upos.ShapeClasses | shared/model/token/upos.py:34-44 | no POS is both noun-like and verb-like; the ones that are neither are exactly ADV, INTJ, ADP, CCONJ, NUM, PART, SCONJ, PUNCT, SYM and X |
| Mapper.Parse | shared/model/token/mapper.py:104-109 | `parse` returns a member whose name is exactly the string, or nothing when no member has that name |
| Mapper.ParseOwnName | shared/model/token/mapper.py:104-109 | when names are distinct, parsing a member's name gives that member |
| Mapper.UposLookupExact | shared/model/token/mapper.py:69-73 | a POS tag maps to a member exactly when it equals that member's name, case-sensitively |
| Mapper.ParseTag | shared/model/token/mapper.py:91-98 | a feature value yields a member only when the value is present and its upper-case form is the member's name; a missing value fails |
| Mapper.ParseTagExact | shared/model/token/mapper.py:91-98 | a present value parses to a member exactly when its upper-case form is that member's name |
| Mapper.FeatureValueLookup | shared/model/token/mapper.py:91-98 | for case, number, gender and tense, a value parses to a member exactly when its upper-case form is that member's name ("Nom", "nom" and "NOM" all give NOM) |
| Mapper.ParsePerson | shared/model/token/mapper.py:122-135 | a person succeeds exactly for "1", "2" and "3", each giving the person whose digit it is; anything else fails, a missing value included |
| Mapper.CollectTagsFailure | shared/model/token/mapper.py:118-119 | collecting the FEATS segments fails exactly when a non-empty segment has no "=" |
| Mapper.CollectTagsLookup | shared/model/token/mapper.py:118-119 | each key of the collected dict holds the value of the last segment carrying that key; keys no segment carries keep the value they had before |
| Mapper.PosTagsToDictFailure | shared/model/token/mapper.py:112-119 | `pos_tags_to_dict` fails exactly when some non-empty segment of the FEATS string lacks "=" |
| Mapper.PosTagsToDictLookup | shared/model/token/mapper.py:112-119 | on success, each key maps to the value of the last segment naming it, and keys no segment names are absent |
| Mapper.PosTagsToDictEmpty | shared/model/token/mapper.py:112-119 | the empty FEATS string gives the empty dict |
| Mapper.FeatureSetFromDict | shared/model/token/mapper.py:85-101 | the POS alone picks the shape: none for closed-class words, noun-shaped or verb-shaped otherwise. A missing required tag fails. The members found are the ones named by the upper-cased tag values, and the person by its digit |
| Mapper.OtherTagsIgnored | shared/model/token/mapper.py:85-101 | two tag dicts that agree on the three keys a shape reads give the same result |
| Mapper.NamesAllUpper | shared/model/token/feature.py:50-79 | member names are upper-case words |
| Mapper.CaseTagParses | shared/model/token/mapper.py:91 | each capitalised case name ("Nom", "Acc" …) parses back to its case |
| Mapper.NumberTagParses | shared/model/token/mapper.py:92 | each capitalised number name parses back to its number |
| Mapper.GenderTagParses | shared/model/token/mapper.py:93 | each capitalised gender name parses back to its gender |
| Mapper.TenseTagParses | shared/model/token/mapper.py:97 | each capitalised tense name parses back to its tense |
| Mapper.NounShapeFromTags | shared/model/token/mapper.py:89-94 | when case, number and gender parse, a noun-like POS gets exactly that noun feature set |
| Mapper.VerbShapeFromTags | shared/model/token/mapper.py:95-100 | when tense, number and person parse, a verb-like POS gets exactly that verb feature set |
| Mapper.NounFeatureSetRoundTrip | shared/model/token/mapper.py:85-94 | the tags written from a noun feature set map back to that same feature set under every noun-like POS |
| Mapper.VerbFeatureSetRoundTrip | shared/model/token/mapper.py:95-100 | the tags written from a verb feature set map back to that same feature set under every verb-like POS |
| Mapper.MapFeatureSetComposes | shared/model/token/mapper.py:76-82 | mapping a word's feature set fails exactly when its POS is unknown, its FEATS string does not split into tags, or the tags do not make a feature set of the POS's shape; otherwise it is the feature set those tags determine |
| Mapper.FromSpacyToken | shared/model/token/mapper.py:54-66 | mapping a word succeeds exactly when its POS is known and its feature set maps. The token keeps the word's text and lemma, has the POS named by the tag, has no ancestor, and its shape agrees with its POS |
| Mapper.FromSpacyTokenFeatures | shared/model/token/mapper.py:54-66 | a mapped token has the POS its word's tag maps to, and exactly the feature set the word's FEATS tags determine under that POS |
| Mapper.ClosedClassWordHasNoFeatureSet | shared/model/token/mapper.py:76-82 | a word with a closed-class POS and well-formed FEATS gets no feature set, whatever its tags say |
| Mapper.MapTokens | shared/model/token/mapper.py:28-29 | mapping a sentence succeeds exactly when every word maps, and then gives one token per word, in order |
| Mapper.IndexByText | shared/model/token/mapper.py:42 | the text index has exactly the texts of the tokens as keys, each mapped to the position of the last token with that text |
| Mapper.EnrichWithAncestors | shared/model/token/mapper.py:33-51 | the in-place pass leaves the array equal to `Enriched` of its old contents. Only words with a head change, and their ancestor becomes the token found under the head's text |
| Mapper.EnrichedChangesOnlyAncestors | shared/model/token/mapper.py:43-50 | the pass keeps every token in place and changes nothing but ancestors, and only those of words that have a head |
| Mapper.EnrichedResolvesByLastText | shared/model/token/mapper.py:42-50 | a word whose head has text t gets the last token with text t, and no ancestor when no token has that text |
| Mapper.FromSpacyDoc | shared/model/token/mapper.py:24-30 | mapping a document fails exactly when a word fails to map. Otherwise it returns one token per word, with ancestors resolved as above and always inside the sentence |
| Mapper.MappedTokensAligned | shared/model/token/mapper.py:28-29 | the tokens of a mapped sentence line up with its words: same text and lemma, shape agreeing with POS, the POS and feature set the word's tags determine, no ancestor yet |
| Mapper.AlignedAncestors | shared/model/token/mapper.py:42-50 | roots keep their ancestor. A word with head h gets a token at or after h that has h's text. When all texts differ, that token is h itself |
| Mapper.SentenceAncestors | shared/model/token/mapper.py:24-51 | after `from_spacy_doc`, each token has its word's text and lemma, a shape agreeing with its POS, and the POS and feature set its word's tags determine. A token has an ancestor exactly when its word has a head, and ancestors lie inside the sentence |
| Mapper.AncestorByTextNotPosition | shared/model/token/mapper.py:42-50 | in "Das Kind sieht das Kind" the first word's head is position 1, yet it receives the token at position 4 |
| UniversalFeatures.GetAllFeatureInstances | shared/universal_features.py:21-26 | listing a feature's values fails exactly when the table lacks the feature. Otherwise it lists the keys of the feature's table in table order, each once |
| UniversalFeatures.Contribution | shared/universal_features.py:38-41 | one feature makes the conversion fail exactly when the word has a non-empty value for it and the table lacks the feature |
| UniversalFeatures.ConvertToLegibleTags | shared/universal_features.py:29-43 | the loop returns the phrase of the descriptions collected in feature order, None entries dropped; or it fails |
| UniversalFeatures.CollectedFailure | shared/universal_features.py:37-41 | the conversion fails exactly when some listed feature has a non-empty value the table has no entry for |
| UniversalFeatures.NoTagsNoPhrase | shared/universal_features.py:37-43 | a word with no non-empty value for any listed feature gives the empty phrase |
| UniversalFeatures.Present | shared/universal_features.py:43 | the filter keeps exactly the present descriptions |
| UniversalFeatures.PresentAppend | shared/universal_features.py:43 | the filter distributes over concatenation, so it keeps the descriptions in order and with their repeats |
| UniversalFeatures.PresentSnoc | shared/universal_features.py:43 | filtering a list with one more entry appends that entry's description, or nothing for a None |
| UniversalFeatures.CollectedAppend | shared/universal_features.py:38-41 | visiting two runs of features in turn concatenates what each collects, and fails when either run fails |
| UniversalFeatures.SilentFeatureDropped | shared/universal_features.py:39-43 | a feature the word has no non-empty value for, or whose value the table does not list, can be removed from the feature list without changing the result |
| UniversalFeatures.AllDescribed | shared/universal_features.py:37-43 | when the table describes every listed feature's value, the phrase is the descriptions joined by spaces, in feature-list order |
| UniversalFeatures.NominalPhraseIsRendering | shared/universal_features.py:17 | with a table that describes every member by its capitalised value, the phrase for a noun's tags over `nominal_features` equals the noun feature set's own string |
| UniversalFeatures.VerbalPhraseIsRendering | shared/universal_features.py:18 | the same agreement for a verb's tags over `verbal_features` |
| Syntactical.Morphology.StringifyExplanation | shared/model/syntactical_analysis.py:22-23 | the explanation is returned exactly when it is present and non-empty |
| Syntactical.SyntacticalAnalysis.StringifyLemma | shared/model/syntactical_analysis.py:33-34 | a phrase is produced exactly for a non-empty lemma; the lemma can be read back between " (from: " and ")" |
| Syntactical.SyntacticalAnalysis.StringifyDependency | shared/model/syntactical_analysis.py:36-42 | a phrase is produced exactly when both the dependency and the lemma are non-empty; the dependency can be read back between " (refers to: " and ")" |
| Syntactical.Kept | shared/model/syntactical_analysis.py:55-57 | the kept properties are never empty and never more than the candidates |
| Syntactical.PropertyList.AddProperty | shared/model/syntactical_analysis.py:55-57 | appends the property when it is present and non-empty, and otherwise leaves the list unchanged |
| Syntactical.Stringify | shared/model/syntactical_analysis.py:44-52 | the rendering is the kept properties joined by "; " |
| Syntactical.PropertiesInOrder | shared/model/syntactical_analysis.py:44-52 | the properties, in order: lemma phrase (if lemma); dependency phrase (if lemma and dependency); POS explanation (if non-empty); morphology explanation (if there is a morphology with a non-empty explanation) |
| Syntactical.NoLemmaNoDependency | shared/model/syntactical_analysis.py:36-42 | without a lemma the dependency never shows, and at most two properties remain |
| Syntactical.TagsRoundTrip | shared/model/syntactical_analysis.py:19-20 | `pos_tags_to_dict` reads the output of `tags_to_string` back into the same dict, order included, when no key or value holds "\|" or "=" |
| Syntactical.CollectSegments | shared/model/syntactical_analysis.py:19-20 | collecting a dict's `k=v` segments from position n, starting from its first n items, rebuilds the dict |
| Scenarios.DerIsNominativeSingularMasculine | test/model/token/test_token_mapper.py:56-65 | a determiner with FEATS "Case=Nom\|Gender=Masc\|Number=Sing" maps to a token in the nominative singular masculine |
| Scenarios.HatIsThirdPersonSingularPresent | test/model/token/test_token_mapper.py:75-81 | a verb with FEATS "Number=Sing\|Person=3\|Tense=Pres" maps to a token in the third person singular present |
| Scenarios.NounWithOnlyCaseFails | shared/model/token/mapper.py:89-94 | a noun whose FEATS string names only its case fails to map |
| Scenarios.DerTischAncestors | test/model/token/test_token_mapper.py:95-100 | in "Der Tisch hat vier eckige Beine." the word "Der" gets "Tisch" as its ancestor and "eckige" gets "Beine"; the root "hat" is unchanged |

## Left out

- The HTTP client (`shared/client.py`) and the inflection model
  (`shared/model/inflection.py`): network I/O and schema declarations outside
  the token layer.
- `load_feature_set`: reading `features/features_de.json` is file I/O. The
  table is a parameter (`UniversalFeatures.Table`), and the file's contents
  are not part of this model.
- The NLP pipeline itself: spaCy tokens and documents become `Mapper.Word`
  and a sequence of words. Heads are positions inside the sentence.
- Pydantic validation is reduced to its outcome: a missing or unparsable
  field makes the whole call fail. The different exception types
  (`AttributeError`, `ValueError`, validation errors) collapse into one
  `Failure`.
- `upper` and `capitalize` are modelled on ASCII letters only. Unicode case
  mappings (such as "ß" or ligatures) are not captured. All names, tags and
  labels of the model are ASCII.
- Token rendering (`__str__` on `Token`) is not in the token module of the
  source, so it is not modelled.
- Mapper.EnrichWithAncestors: heads outside the sentence are excluded by
  precondition, not treated as an error. A parsed document cannot produce
  them.
- The ancestor of a token is an index into the sentence instead of an
  object reference. Later changes to the ancestor token are therefore
  visible through it, as they are through the reference.
