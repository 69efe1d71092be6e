/** The older syntactical-analysis record of a word and its one-line
    rendering: lemma, dependency, part-of-speech explanation and morphology
    explanation, each only when present, joined by "; ". */
module Syntactical {
  import opened Wrappers
  import opened Strings
  import opened Dicts
  import opened Mapper

  /** Python truthiness of an optional string: present and non-empty. */
  predicate Truthy(s: Option<string>)
  {
    s.Some? && s.value != ""
  }

  datatype PartOfSpeech = PartOfSpeech(value: string, explanation: string)

  /** One FEATS segment `k=v` per item of a dict, in the dict's order. */
  function Segments(tags: Items): (segs: seq<string>)
    ensures |segs| == |tags|
    ensures forall i :: 0 <= i < |tags| ==> segs[i] == tags[i].0 + "=" + tags[i].1
  {
    if tags == [] then [] else [tags[0].0 + "=" + tags[0].1] + Segments(tags[1..])
  }

  datatype Morphology = Morphology(tags: Dict, explanation: Option<string>)
  {
    /** `tags_to_string`: the items as `k=v`, joined by "|". */
    function TagsToString(): string
    {
      Join(Segments(tags), "|")
    }

    /** `stringify_explanation`: the explanation, unless it is missing or empty. */
    function StringifyExplanation(): (r: Option<string>)
      ensures r.Some? <==> Truthy(explanation)
      ensures r.Some? ==> r == explanation
    {
      if Truthy(explanation) then explanation else None
    }
  }

  datatype SyntacticalAnalysis = SyntacticalAnalysis(
    word: string,
    pos: PartOfSpeech,
    morphology: Option<Morphology>,
    lemmaForm: Option<string>,
    dependency: Option<string>)
  {
    /** `stringify_lemma`: " (from: L)" for a non-empty lemma L. The lemma
        can be read back from between the fixed prefix and the closing parenthesis. */
    function StringifyLemma(): (r: Option<string>)
      ensures r.Some? <==> Truthy(lemmaForm)
      ensures r.Some? ==> |r.value| == |lemmaForm.value| + 9
                          && r.value[..8] == " (from: " && r.value[8..|r.value| - 1] == lemmaForm.value
                          && r.value[|r.value| - 1] == ')'
    {
      if Truthy(lemmaForm) then Some(" (from: " + lemmaForm.value + ")") else None
    }

    /** `stringify_dependency`: " (refers to: D)", but only for a word that
        has both a non-empty dependency D and a non-empty lemma. */
    function StringifyDependency(): (r: Option<string>)
      ensures r.Some? <==> Truthy(dependency) && Truthy(lemmaForm)
      ensures r.Some? ==> |r.value| == |dependency.value| + 14
                          && r.value[..13] == " (refers to: " && r.value[13..|r.value| - 1] == dependency.value
                          && r.value[|r.value| - 1] == ')'
    {
      if Truthy(dependency) && Truthy(lemmaForm) then Some(" (refers to: " + dependency.value + ")") else None
    }
  }

  /** The list `add_property` builds from a sequence of candidates: the
      truthy ones, in order. */
  function Kept(candidates: seq<Option<string>>): (r: seq<string>)
    ensures |r| <= |candidates|
    ensures forall i :: 0 <= i < |r| ==> r[i] != ""
  {
    if candidates == [] then []
    else
      var last := candidates[|candidates| - 1];
      Kept(candidates[..|candidates| - 1]) + if Truthy(last) then [last.value] else []
  }

  /** One more candidate adds itself at the end when it is truthy. */
  lemma KeptSnoc(candidates: seq<Option<string>>, c: Option<string>)
    ensures Kept(candidates + [c]) == Kept(candidates) + if Truthy(c) then [c.value] else []
  {
    assert (candidates + [c])[..|candidates|] == candidates;
  }

  /** The candidates `stringify` offers, in its fixed order. */
  function Candidates(a: SyntacticalAnalysis): seq<Option<string>>
  {
    [a.StringifyLemma(), a.StringifyDependency(), Some(a.pos.explanation)]
      + if a.morphology.Some? then [a.morphology.value.StringifyExplanation()] else []
  }

  /** The properties of an analysis, before they are joined. */
  function Properties(a: SyntacticalAnalysis): seq<string>
  {
    Kept(Candidates(a))
  }

  /** The mutable list of properties `stringify` fills. */
  class PropertyList {
    var items: seq<string>

    constructor()
      ensures items == []
    {
      items := [];
    }

    /** `add_property`: appends the property when it is present and non-empty. */
    method AddProperty(property: Option<string>)
      modifies this
      ensures items == old(items) + if Truthy(property) then [property.value] else []
    {
      if property.Some? && property.value != "" {
        items := items + [property.value];
      }
    }
  }

  /** `stringify`. */
  method Stringify(a: SyntacticalAnalysis) returns (r: string)
    ensures r == Join(Properties(a), "; ")
  {
    var properties := new PropertyList();
    ghost var offered: seq<Option<string>> := [];
    properties.AddProperty(a.StringifyLemma());
    KeptSnoc(offered, a.StringifyLemma());
    offered := offered + [a.StringifyLemma()];
    properties.AddProperty(a.StringifyDependency());
    KeptSnoc(offered, a.StringifyDependency());
    offered := offered + [a.StringifyDependency()];
    properties.AddProperty(Some(a.pos.explanation));
    KeptSnoc(offered, Some(a.pos.explanation));
    offered := offered + [Some(a.pos.explanation)];
    if a.morphology.Some? {
      properties.AddProperty(a.morphology.value.StringifyExplanation());
      KeptSnoc(offered, a.morphology.value.StringifyExplanation());
      offered := offered + [a.morphology.value.StringifyExplanation()];
    }
    assert offered == Candidates(a);
    r := Join(properties.items, "; ");
  }

  /** The properties, stated directly: the lemma phrase for a word with a
      lemma, then the dependency phrase when it also has a dependency, then
      the part-of-speech explanation unless empty, then the morphology
      explanation when there is a morphology with a non-empty explanation. */
  lemma PropertiesInOrder(a: SyntacticalAnalysis)
    ensures Properties(a)
         == (if Truthy(a.lemmaForm) then [" (from: " + a.lemmaForm.value + ")"] else [])
          + (if Truthy(a.lemmaForm) && Truthy(a.dependency) then [" (refers to: " + a.dependency.value + ")"] else [])
          + (if a.pos.explanation != "" then [a.pos.explanation] else [])
          + (if a.morphology.Some? && Truthy(a.morphology.value.explanation)
             then [a.morphology.value.explanation.value] else [])
  {
    var l, d, p := a.StringifyLemma(), a.StringifyDependency(), Some(a.pos.explanation);
    var lp := if Truthy(a.lemmaForm) then [" (from: " + a.lemmaForm.value + ")"] else [];
    var dp := if Truthy(a.lemmaForm) && Truthy(a.dependency) then [" (refers to: " + a.dependency.value + ")"] else [];
    var pp := if a.pos.explanation != "" then [a.pos.explanation] else [];
    KeptSnoc([], l);
    KeptSnoc([l], d);
    KeptSnoc([l, d], p);
    assert [] + [l] == [l] && [l] + [d] == [l, d] && [l, d] + [p] == [l, d, p];
    assert Kept([l]) == lp;
    assert Kept([l, d]) == lp + dp;
    assert Kept([l, d, p]) == lp + dp + pp;
    if a.morphology.Some? {
      var m := a.morphology.value.StringifyExplanation();
      KeptSnoc([l, d, p], m);
      assert Candidates(a) == [l, d, p] + [m];
      assert Properties(a) == lp + dp + pp + (if Truthy(m) then [m.value] else []);
    } else {
      assert Candidates(a) == [l, d, p];
    }
  }

  /** A word without a lemma never shows a dependency, whatever it refers to. */
  lemma NoLemmaNoDependency(a: SyntacticalAnalysis)
    requires !Truthy(a.lemmaForm)
    ensures Properties(a) == Properties(a.(dependency := None))
    ensures |Properties(a)| <= 2
  {
    PropertiesInOrder(a);
    PropertiesInOrder(a.(dependency := None));
  }

  /** `tags_to_string` is read back by `pos_tags_to_dict` when no key or
      value contains "|" or "=". */
  lemma TagsRoundTrip(m: Morphology)
    requires forall i :: 0 <= i < |m.tags| ==>
               '|' !in m.tags[i].0 && '=' !in m.tags[i].0 && '|' !in m.tags[i].1 && '=' !in m.tags[i].1
    ensures PosTagsToDict(m.TagsToString()) == Success(m.tags)
  {
    var segs := Segments(m.tags);
    if segs == [] {
      assert m.TagsToString() == "";
    } else {
      forall i | 0 <= i < |segs| ensures '|' !in segs[i] {
        assert segs[i] == m.tags[i].0 + "=" + m.tags[i].1;
      }
      SplitJoin(segs, '|');
      assert "|" == ['|'];
    }
    CollectSegments(m.tags, 0);
    assert m.tags[0..] == m.tags && m.tags[..0] == [];
  }

  /** A segment `k=v` with no "=" in k or v splits back into k and v. */
  lemma SegmentSplits(k: string, v: string)
    requires '=' !in k && '=' !in v
    ensures Split(k + "=" + v, '=') == [k, v]
    ensures SegmentKey(k + "=" + v) == k && SegmentValue(k + "=" + v) == v
  {
    assert k + "=" + v == k + ['='] + v;
    SplitPrefix(k, v, '=');
    SplitNoSeparator(v, '=');
  }

  /** The first segment of a dict with a fresh key is taken apart and
      appended to the accumulator. */
  lemma CollectFirstSegment(d: Dict, acc: Dict)
    requires d != [] && '=' !in d[0].0 && '=' !in d[0].1
    requires forall j :: 0 <= j < |acc| ==> acc[j].0 != d[0].0
    ensures DistinctKeys(acc + [d[0]])
    ensures CollectTags(Segments(d), acc) == CollectTags(Segments(d[1..]), acc + [d[0]])
  {
    var k, v := d[0].0, d[0].1;
    var segs := Segments(d);
    SegmentSplits(k, v);
    assert segs[0] == k + "=" + v;
    PutFresh(acc, k, v);
    assert segs[1..] == Segments(d[1..]);
  }

  /** One step of the collection: the item at position `n` moves from the
      segments still to read to the dict built so far. */
  lemma CollectStepAt(d: Dict, n: nat)
    requires n < |d| && '=' !in d[n].0 && '=' !in d[n].1
    ensures CollectTags(Segments(d[n..]), d[..n]) == CollectTags(Segments(d[n + 1..]), d[..n + 1])
  {
    var done: Dict := d[..n];
    var todo: Dict := d[n..];
    SliceAt(d, n);
    CollectFirstSegment(todo, done);
  }

  /** The slices around position `n` of a dict: the item there is fresh for
      the items before it, and moving it across keeps both sides in order. */
  lemma SliceAt(d: Dict, n: nat)
    requires n < |d|
    ensures d[n..] != [] && d[n..][0] == d[n] && d[n..][1..] == d[n + 1..]
    ensures d[..n] + [d[n]] == d[..n + 1]
    ensures forall j :: 0 <= j < |d[..n]| ==> d[..n][j].0 != d[n..][0].0
  {
    forall j | 0 <= j < |d[..n]|
      ensures d[..n][j].0 != d[n..][0].0
    {
      assert d[..n][j] == d[j];
    }
  }

  /** Collecting the segments of the items of a dict from position `n` on,
      starting from its first `n` items, rebuilds the whole dict. */
  lemma {:induction false} CollectSegments(d: Dict, n: nat)
    requires n <= |d|
    requires forall i :: 0 <= i < |d| ==> '=' !in d[i].0 && '=' !in d[i].1
    ensures CollectTags(Segments(d[n..]), d[..n]) == Success(d)
    decreases |d| - n
  {
    if n == |d| {
      assert d[..n] == d;
    } else {
      CollectStepAt(d, n);
      CollectSegments(d, n + 1);
    }
  }
}
