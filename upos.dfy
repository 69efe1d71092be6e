/** The part-of-speech classification of shared/model/token/upos.py: the 17
    Universal Dependencies "Universal POS tags", each with its Python member
    `Name()` and display `Label()`, and the two predicates that choose the
    feature-set shape. */
module Upos {

  datatype UPOS =
    // Open class words
    | ADJ | ADV | INTJ | NOUN | PROPN | VERB
    // Closed class words
    | ADP | AUX | CCONJ | DET | NUM | PART | PRON | SCONJ
    // Other
    | PUNCT | SYM | X
  {
    function Name(): string
    {
      match this
      case ADJ => "ADJ"
      case ADV => "ADV"
      case INTJ => "INTJ"
      case NOUN => "NOUN"
      case PROPN => "PROPN"
      case VERB => "VERB"
      case ADP => "ADP"
      case AUX => "AUX"
      case CCONJ => "CCONJ"
      case DET => "DET"
      case NUM => "NUM"
      case PART => "PART"
      case PRON => "PRON"
      case SCONJ => "SCONJ"
      case PUNCT => "PUNCT"
      case SYM => "SYM"
      case X => "X"
    }

    function Label(): string
    {
      match this
      case ADJ => "adjective"
      case ADV => "adverb"
      case INTJ => "interjection"
      case NOUN => "noun"
      case PROPN => "proper noun"
      case VERB => "verb"
      case ADP => "adposition"
      case AUX => "auxiliary verb"
      case CCONJ => "coordinating conjunction"
      case DET => "determiner"
      case NUM => "numeral"
      case PART => "particle"
      case PRON => "pronoun"
      case SCONJ => "subordinating conjunction"
      case PUNCT => "punctuation"
      case SYM => "symbol"
      case X => "other"
    }

    /** Likely to carry case, gender and number. */
    predicate IsNounLike()
    {
      this in {NOUN, PROPN, PRON, DET, ADJ}
    }

    /** Likely to carry tense, person and number. */
    predicate IsVerbLike()
    {
      this in {VERB, AUX}
    }
  }

  /** The members in declaration order (`UPOS.__members__`). */
  const AllUpos: seq<UPOS> :=
    [ADJ, ADV, INTJ, NOUN, PROPN, VERB, ADP, AUX, CCONJ, DET, NUM, PART, PRON, SCONJ, PUNCT, SYM, X]

  /** The enum has exactly 17 members, each listed once. */
  lemma UposCount()
    ensures |AllUpos| == 17
    ensures forall u: UPOS :: u in AllUpos
    ensures forall i, j :: 0 <= i < j < |AllUpos| ==> AllUpos[i] != AllUpos[j]
  {
    forall u: UPOS ensures u in AllUpos {
      match u
      case ADJ => assert AllUpos[0] == u;
      case ADV => assert AllUpos[1] == u;
      case INTJ => assert AllUpos[2] == u;
      case NOUN => assert AllUpos[3] == u;
      case PROPN => assert AllUpos[4] == u;
      case VERB => assert AllUpos[5] == u;
      case ADP => assert AllUpos[6] == u;
      case AUX => assert AllUpos[7] == u;
      case CCONJ => assert AllUpos[8] == u;
      case DET => assert AllUpos[9] == u;
      case NUM => assert AllUpos[10] == u;
      case PART => assert AllUpos[11] == u;
      case PRON => assert AllUpos[12] == u;
      case SCONJ => assert AllUpos[13] == u;
      case PUNCT => assert AllUpos[14] == u;
      case SYM => assert AllUpos[15] == u;
      case X => assert AllUpos[16] == u;
    }
  }

  /** Display labels and member names are pairwise distinct. */
  lemma LabelsAndNamesDistinct()
    ensures forall a: UPOS, b: UPOS :: a.Label() == b.Label() ==> a == b
    ensures forall a: UPOS, b: UPOS :: a.Name() == b.Name() ==> a == b
  {
  }

  /** The three classes partition the tags: five noun-like, two verb-like, and
      the ten others are neither, so the mapper gives them no feature set. */
  lemma ShapeClasses(u: UPOS)
    ensures !(u.IsNounLike() && u.IsVerbLike())
    ensures (!u.IsNounLike() && !u.IsVerbLike())
        <==> u in {ADV, INTJ, ADP, CCONJ, NUM, PART, SCONJ, PUNCT, SYM, X}
  {
  }
}
