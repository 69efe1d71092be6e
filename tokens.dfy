/** The token record of shared/model/token/token.py. The Python `ancestor`
    is an object reference to another token of the same sentence; here it is
    the index of that token in the sentence's token sequence. */
module Tokens {
  import opened Wrappers
  import opened Features
  import opened Upos

  datatype Token = Token(
    text: string,
    lemmaForm: string,  // the lemma (dictionary base form)
    upos: UPOS,
    featureSet: Option<FeatureSet>,
    ancestor: Option<nat>)

  /** The feature-set shape agrees with the part of speech: a noun shape
      exactly for noun-like tags, a verb shape exactly for verb-like tags, and
      no feature set for the rest. */
  predicate ShapeAgrees(t: Token)
  {
    && (t.featureSet.None? <==> !t.upos.IsNounLike() && !t.upos.IsVerbLike())
    && (t.featureSet.Some? && t.featureSet.value.NounFeatureSet? <==> t.upos.IsNounLike())
    && (t.featureSet.Some? && t.featureSet.value.VerbFeatureSet? <==> t.upos.IsVerbLike())
  }

  /** Every ancestor reference points into the sentence itself. */
  predicate AncestorsInRange(sentence: seq<Token>)
  {
    forall i :: 0 <= i < |sentence| && sentence[i].ancestor.Some? ==> sentence[i].ancestor.value < |sentence|
  }
}
