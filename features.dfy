/** The feature taxonomy of shared/model/token/feature.py: five closed
    categories following the Universal Dependencies "Universal features"
    inventory, and the two feature-set shapes with their renderings.
    Each enum member has its Python member `Name()` (the upper-case code the
    mapper looks up) and its display `Label()` (the Python enum value). */
module Features {
  import opened Strings

  datatype Case = NOM | ACC | DAT | GEN
  {
    function Name(): string
    {
      match this
      case NOM => "NOM"
      case ACC => "ACC"
      case DAT => "DAT"
      case GEN => "GEN"
    }

    function Label(): string
    {
      match this
      case NOM => "nominative"
      case ACC => "accusative"
      case DAT => "dative"
      case GEN => "genitive"
    }
  }

  datatype Gender = MASC | FEM | NEUT
  {
    function Name(): string
    {
      match this
      case MASC => "MASC"
      case FEM => "FEM"
      case NEUT => "NEUT"
    }

    function Label(): string
    {
      match this
      case MASC => "masculine"
      case FEM => "feminine"
      case NEUT => "neuter"
    }
  }

  datatype Number = SING | PLUR
  {
    function Name(): string
    {
      match this
      case SING => "SING"
      case PLUR => "PLUR"
    }

    function Label(): string
    {
      match this
      case SING => "singular"
      case PLUR => "plural"
    }
  }

  datatype Person = FIRST | SECOND | THIRD
  {
    function Name(): string
    {
      match this
      case FIRST => "FIRST"
      case SECOND => "SECOND"
      case THIRD => "THIRD"
    }

    function Label(): string
    {
      match this
      case FIRST => "first person"
      case SECOND => "second person"
      case THIRD => "third person"
    }
  }

  datatype Tense = PRES | PAST | IMP | FUT | PQP
  {
    function Name(): string
    {
      match this
      case PRES => "PRES"
      case PAST => "PAST"
      case IMP => "IMP"
      case FUT => "FUT"
      case PQP => "PQP"
    }

    function Label(): string
    {
      match this
      case PRES => "Present tense"
      case PAST => "Past tense"
      case IMP => "Imperfect"
      case FUT => "Future tense"
      case PQP => "Pluperfect"
    }
  }

  /** The members of each category, in declaration order (`Enum.__members__`). */
  const AllCases: seq<Case> := [NOM, ACC, DAT, GEN]
  const AllGenders: seq<Gender> := [MASC, FEM, NEUT]
  const AllNumbers: seq<Number> := [SING, PLUR]
  const AllPersons: seq<Person> := [FIRST, SECOND, THIRD]
  const AllTenses: seq<Tense> := [PRES, PAST, IMP, FUT, PQP]

  /** The two closed shapes of the abstract `FeatureSet` base class. */
  datatype FeatureSet =
    | NounFeatureSet(grammaticalCase: Case, number: Number, gender: Gender)
    | VerbFeatureSet(person: Person, number: Number, tense: Tense)
  {
    /** `__str__`: the capitalised labels, space-separated, in the order
        case-number-gender for nouns and person-number-tense for verbs. */
    function Render(): string
    {
      match this
      case NounFeatureSet(c, n, g) =>
        Capitalize(c.Label()) + " " + Capitalize(n.Label()) + " " + Capitalize(g.Label())
      case VerbFeatureSet(p, n, t) =>
        Capitalize(p.Label()) + " " + Capitalize(n.Label()) + " " + Capitalize(t.Label())
    }
  }

  /** Every category lists each of its members exactly once; the sizes are 4, 3, 2, 3 and 5. */
  lemma CategorySizes()
    ensures |AllCases| == 4 && (forall c: Case :: c in AllCases)
    ensures |AllGenders| == 3 && (forall g: Gender :: g in AllGenders)
    ensures |AllNumbers| == 2 && (forall n: Number :: n in AllNumbers)
    ensures |AllPersons| == 3 && (forall p: Person :: p in AllPersons)
    ensures |AllTenses| == 5 && (forall t: Tense :: t in AllTenses)
    ensures forall i, j :: 0 <= i < j < |AllCases| ==> AllCases[i] != AllCases[j]
    ensures forall i, j :: 0 <= i < j < |AllGenders| ==> AllGenders[i] != AllGenders[j]
    ensures forall i, j :: 0 <= i < j < |AllNumbers| ==> AllNumbers[i] != AllNumbers[j]
    ensures forall i, j :: 0 <= i < j < |AllPersons| ==> AllPersons[i] != AllPersons[j]
    ensures forall i, j :: 0 <= i < j < |AllTenses| ==> AllTenses[i] != AllTenses[j]
  {
    forall c: Case ensures c in AllCases {
      match c
      case NOM => assert AllCases[0] == c;
      case ACC => assert AllCases[1] == c;
      case DAT => assert AllCases[2] == c;
      case GEN => assert AllCases[3] == c;
    }
    forall g: Gender ensures g in AllGenders {
      match g
      case MASC => assert AllGenders[0] == g;
      case FEM => assert AllGenders[1] == g;
      case NEUT => assert AllGenders[2] == g;
    }
    forall n: Number ensures n in AllNumbers {
      match n
      case SING => assert AllNumbers[0] == n;
      case PLUR => assert AllNumbers[1] == n;
    }
    forall p: Person ensures p in AllPersons {
      match p
      case FIRST => assert AllPersons[0] == p;
      case SECOND => assert AllPersons[1] == p;
      case THIRD => assert AllPersons[2] == p;
    }
    forall t: Tense ensures t in AllTenses {
      match t
      case PRES => assert AllTenses[0] == t;
      case PAST => assert AllTenses[1] == t;
      case IMP => assert AllTenses[2] == t;
      case FUT => assert AllTenses[3] == t;
      case PQP => assert AllTenses[4] == t;
    }
  }

  /** Within each category, member-to-label and member-to-name are injective. */
  lemma LabelsAndNamesInjective()
    ensures forall a: Case, b: Case :: a.Label() == b.Label() ==> a == b
    ensures forall a: Gender, b: Gender :: a.Label() == b.Label() ==> a == b
    ensures forall a: Number, b: Number :: a.Label() == b.Label() ==> a == b
    ensures forall a: Person, b: Person :: a.Label() == b.Label() ==> a == b
    ensures forall a: Tense, b: Tense :: a.Label() == b.Label() ==> a == b
    ensures forall a: Case, b: Case :: a.Name() == b.Name() ==> a == b
    ensures forall a: Gender, b: Gender :: a.Name() == b.Name() ==> a == b
    ensures forall a: Number, b: Number :: a.Name() == b.Name() ==> a == b
    ensures forall a: Person, b: Person :: a.Name() == b.Name() ==> a == b
    ensures forall a: Tense, b: Tense :: a.Name() == b.Name() ==> a == b
  {
  }

  /** A display label is non-empty and has no upper-case letter after its first character. */
  predicate LabelShape(s: string)
  {
    s != [] && NoUpperFrom(s, 1)
  }

  /** A label with no upper-case letter after the first character,
      capitalised, is its first letter upper-cased followed by the rest. */
  lemma CapitalizedLabel(s: string, cap: string)
    requires s != [] && NoUpperFrom(s, 1)
    requires |cap| == |s| && cap[0] == UpperChar(s[0]) && forall i :: 1 <= i < |s| ==> cap[i] == s[i]
    ensures LabelShape(s) && Capitalize(s) == cap
  {
    CapitalizeFirstOnly(s);
    assert cap == [UpperChar(s[0])] + s[1..];
  }

  /** The capitalised case labels; each label is a single word. */
  lemma CapitalizedCase(c: Case)
    ensures LabelShape(c.Label()) && ' ' !in c.Label()
    ensures Capitalize(c.Label()) == match c
      case NOM => "Nominative" case ACC => "Accusative" case DAT => "Dative" case GEN => "Genitive"
  {
    match c
    case NOM => NominativeLabel();
    case ACC => AccusativeLabel();
    case DAT => DativeLabel();
    case GEN => GenitiveLabel();
  }

  lemma NominativeLabel()
    ensures LabelShape("nominative") && Capitalize("nominative") == "Nominative" && ' ' !in "nominative"
  {
    CapitalizedLabel("nominative", "Nominative");
  }

  lemma AccusativeLabel()
    ensures LabelShape("accusative") && Capitalize("accusative") == "Accusative" && ' ' !in "accusative"
  {
    CapitalizedLabel("accusative", "Accusative");
  }

  lemma DativeLabel()
    ensures LabelShape("dative") && Capitalize("dative") == "Dative" && ' ' !in "dative"
  {
    CapitalizedLabel("dative", "Dative");
  }

  lemma GenitiveLabel()
    ensures LabelShape("genitive") && Capitalize("genitive") == "Genitive" && ' ' !in "genitive"
  {
    CapitalizedLabel("genitive", "Genitive");
  }

  /** The capitalised gender labels; each label is a single word. */
  lemma CapitalizedGender(g: Gender)
    ensures LabelShape(g.Label()) && ' ' !in g.Label()
    ensures Capitalize(g.Label()) == match g
      case MASC => "Masculine" case FEM => "Feminine" case NEUT => "Neuter"
  {
    match g
    case MASC => MasculineLabel();
    case FEM => FeminineLabel();
    case NEUT => NeuterLabel();
  }

  lemma MasculineLabel()
    ensures LabelShape("masculine") && Capitalize("masculine") == "Masculine" && ' ' !in "masculine"
  {
    CapitalizedLabel("masculine", "Masculine");
  }

  lemma FeminineLabel()
    ensures LabelShape("feminine") && Capitalize("feminine") == "Feminine" && ' ' !in "feminine"
  {
    CapitalizedLabel("feminine", "Feminine");
  }

  lemma NeuterLabel()
    ensures LabelShape("neuter") && Capitalize("neuter") == "Neuter" && ' ' !in "neuter"
  {
    CapitalizedLabel("neuter", "Neuter");
  }

  /** The capitalised number labels; each label is a single word. */
  lemma CapitalizedNumber(n: Number)
    ensures LabelShape(n.Label()) && ' ' !in n.Label()
    ensures Capitalize(n.Label()) == match n
      case SING => "Singular" case PLUR => "Plural"
  {
    match n
    case SING => SingularLabel();
    case PLUR => PluralLabel();
  }

  lemma SingularLabel()
    ensures LabelShape("singular") && Capitalize("singular") == "Singular" && ' ' !in "singular"
  {
    CapitalizedLabel("singular", "Singular");
  }

  lemma PluralLabel()
    ensures LabelShape("plural") && Capitalize("plural") == "Plural" && ' ' !in "plural"
  {
    CapitalizedLabel("plural", "Plural");
  }

  /** The capitalised person labels. */
  lemma CapitalizedPerson(p: Person)
    ensures LabelShape(p.Label())
    ensures p == FIRST ==> Capitalize(p.Label()) == "First person"
    ensures p == SECOND ==> Capitalize(p.Label()) == "Second person"
    ensures p == THIRD ==> Capitalize(p.Label()) == "Third person"
  {
    match p
    case FIRST => FirstPersonLabel();
    case SECOND => SecondPersonLabel();
    case THIRD => ThirdPersonLabel();
  }

  lemma FirstPersonLabel()
    ensures LabelShape("first person") && Capitalize("first person") == "First person"
  {
    CapitalizedLabel("first person", "First person");
  }

  lemma SecondPersonLabel()
    ensures LabelShape("second person") && Capitalize("second person") == "Second person"
  {
    CapitalizedLabel("second person", "Second person");
  }

  lemma ThirdPersonLabel()
    ensures LabelShape("third person") && Capitalize("third person") == "Third person"
  {
    CapitalizedLabel("third person", "Third person");
  }

  /** Tense labels are already capitalised, so `capitalize` leaves them as they are. */
  lemma CapitalizedTense(t: Tense)
    ensures LabelShape(t.Label())
    ensures Capitalize(t.Label()) == t.Label()
  {
    match t
    case PRES => PresentTenseLabel();
    case PAST => PastTenseLabel();
    case IMP => ImperfectLabel();
    case FUT => FutureTenseLabel();
    case PQP => PluperfectLabel();
  }

  lemma PresentTenseLabel()
    ensures LabelShape("Present tense") && Capitalize("Present tense") == "Present tense"
  {
    CapitalizedLabel("Present tense", "Present tense");
  }

  lemma PastTenseLabel()
    ensures LabelShape("Past tense") && Capitalize("Past tense") == "Past tense"
  {
    CapitalizedLabel("Past tense", "Past tense");
  }

  lemma ImperfectLabel()
    ensures LabelShape("Imperfect") && Capitalize("Imperfect") == "Imperfect"
  {
    CapitalizedLabel("Imperfect", "Imperfect");
  }

  lemma FutureTenseLabel()
    ensures LabelShape("Future tense") && Capitalize("Future tense") == "Future tense"
  {
    CapitalizedLabel("Future tense", "Future tense");
  }

  lemma PluperfectLabel()
    ensures LabelShape("Pluperfect") && Capitalize("Pluperfect") == "Pluperfect"
  {
    CapitalizedLabel("Pluperfect", "Pluperfect");
  }

  /** A noun rendering is exactly three space-separated words: the
      capitalised case, number and gender labels, in that order. */
  lemma NounRenderingWords(c: Case, n: Number, g: Gender)
    ensures Split(NounFeatureSet(c, n, g).Render(), ' ')
         == [Capitalize(c.Label()), Capitalize(n.Label()), Capitalize(g.Label())]
  {
    var words := [Capitalize(c.Label()), Capitalize(n.Label()), Capitalize(g.Label())];
    NounWordsHaveNoSpace(c, n, g);
    SplitJoin(words, ' ');
    JoinThree(words[0], words[1], words[2], " ");
  }

  /** None of the three capitalised noun labels holds a space. */
  lemma NounWordsHaveNoSpace(c: Case, n: Number, g: Gender)
    ensures ' ' !in Capitalize(c.Label()) && ' ' !in Capitalize(n.Label()) && ' ' !in Capitalize(g.Label())
  {
    CapitalizeKeepsSpaces(c.Label());
    CapitalizeKeepsSpaces(n.Label());
    CapitalizeKeepsSpaces(g.Label());
    CapitalizedCase(c);
    CapitalizedNumber(n);
    CapitalizedGender(g);
  }

  /** The rendering asserted for an accusative singular masculine noun. */
  lemma NounRenderingExample()
    ensures NounFeatureSet(ACC, SING, MASC).Render() == "Accusative Singular Masculine"
  {
    CapitalizedCase(ACC);
    CapitalizedNumber(SING);
    CapitalizedGender(MASC);
    assert NounFeatureSet(ACC, SING, MASC).Render() == "Accusative" + " " + "Singular" + " " + "Masculine";
    NounExampleText();
  }

  lemma NounExampleText()
    ensures "Accusative" + " " + "Singular" + " " + "Masculine" == "Accusative Singular Masculine"
  {
  }

  /** The rendering asserted for a first person singular past verb. */
  lemma VerbRenderingExample()
    ensures VerbFeatureSet(FIRST, SING, PAST).Render() == "First person Singular Past tense"
  {
    CapitalizedPerson(FIRST);
    CapitalizedNumber(SING);
    CapitalizedTense(PAST);
    assert VerbFeatureSet(FIRST, SING, PAST).Render() == "First person" + " " + "Singular" + " " + "Past tense";
    VerbExampleText();
  }

  lemma VerbExampleText()
    ensures "First person" + " " + "Singular" + " " + "Past tense" == "First person Singular Past tense"
  {
  }
}
