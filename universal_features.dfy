/** The table of legible Universal Feature descriptions and the conversion of
    a word's tags into a legible phrase ("Nominative Plural Masculine"). */
module UniversalFeatures {
  import opened Wrappers
  import opened Strings
  import opened Dicts
  import opened Features
  import opened Mapper

  /** The loaded description table: feature name (such as "Case") to an
      ordered dictionary from tag value ("Nom") to description. The table is
      read from a JSON file in the source; here it is a parameter. */
  type Table = map<string, Dict>

  const NominalFeatures: seq<string> := ["Case", "Number", "Gender"]
  const VerbalFeatures: seq<string> := ["Person", "Number", "Tense"]

  /** `get_all_feature_instances`: the values of a feature, in table order;
      a feature missing from the table is an error (`None.keys()`). */
  function GetAllFeatureInstances(table: Table, feature: string): (r: Result<seq<string>>)
    ensures r.Success? <==> feature in table
    ensures r.Success? ==> r.value == Keys(table[feature])
    ensures r.Success? ==> |r.value| == |table[feature]|
    ensures r.Success? ==> forall v :: v in r.value <==> Get(table[feature], v).Some?
    ensures r.Success? ==> forall i, j :: 0 <= i < j < |r.value| ==> r.value[i] != r.value[j]
  {
    if feature in table then
      var ks := Keys(table[feature]);
      assert forall i, j :: 0 <= i < j < |ks| ==> ks[i] != ks[j] by {
        forall i, j | 0 <= i < j < |ks| ensures ks[i] != ks[j] {
          assert ks[i] == table[feature][i].0 && ks[j] == table[feature][j].0;
        }
      }
      Success(ks)
    else Failure
  }

  /** The feature makes the conversion fail: the word carries a non-empty
      value for it, but the table has no entry for the feature at all. */
  predicate Blocks(table: Table, tags: Dict, feature: string)
  {
    Get(tags, feature).Some? && Get(tags, feature).value != "" && feature !in table
  }

  /** What one feature adds to the list of legible tags: nothing when the
      word has no value (or an empty one) for it, otherwise the table's
      description of the value, which is None when the table does not list
      that value. */
  function Contribution(table: Table, tags: Dict, feature: string): (r: Result<seq<Option<string>>>)
    ensures r.Failure? <==> Blocks(table, tags, feature)
  {
    match Get(tags, feature)
    case None => Success([])
    case Some(v) =>
      if v == "" then Success([])
      else if feature !in table then Failure
      else Success([Get(table[feature], v)])
  }

  /** The list of legible tags after the features have been visited in
      order, before the None entries are filtered out. */
  function Collected(table: Table, tags: Dict, features: seq<string>): Result<seq<Option<string>>>
  {
    if features == [] then Success([])
    else
      match Collected(table, tags, features[..|features| - 1])
      case Failure => Failure
      case Success(acc) =>
        match Contribution(table, tags, features[|features| - 1])
        case Failure => Failure
        case Success(c) => Success(acc + c)
  }

  /** Visiting one more feature extends the collected list by that
      feature's contribution, and a failure stays a failure. */
  lemma CollectedStep(table: Table, tags: Dict, features: seq<string>, i: nat)
    requires i < |features|
    ensures var before := Collected(table, tags, features[..i]);
            var c := Contribution(table, tags, features[i]);
            Collected(table, tags, features[..i + 1])
              == if before.Failure? || c.Failure? then Failure else Success(before.value + c.value)
  {
    assert features[..i + 1][..i] == features[..i];
  }

  /** `filter(lambda x: x is not None, ...)`. */
  function Present(xs: seq<Option<string>>): (r: seq<string>)
    ensures |r| <= |xs|
    ensures forall s :: s in r <==> Some(s) in xs
  {
    if xs == [] then []
    else
      var rest := Present(xs[1..]);
      assert forall s :: Some(s) in xs <==> xs[0] == Some(s) || Some(s) in xs[1..];
      match xs[0]
      case None => rest
      case Some(s) => [s] + rest
  }

  /** The filter keeps the descriptions of a concatenation in order and with
      their repeats: it distributes over `+`. */
  lemma {:induction false} PresentAppend(xs: seq<Option<string>>, ys: seq<Option<string>>)
    ensures Present(xs + ys) == Present(xs) + Present(ys)
  {
    if xs == [] {
      assert xs + ys == ys;
    } else {
      var zs := xs + ys;
      assert zs[0] == xs[0];
      assert zs[1..] == xs[1..] + ys;
      PresentAppend(xs[1..], ys);
      var a, b := Present(xs[1..]), Present(ys);
      match xs[0]
      case None =>
        assert Present(zs) == a + b;
      case Some(s) =>
        assert Present(zs) == [s] + (a + b);
        assert [s] + (a + b) == ([s] + a) + b;
    }
  }

  /** One more entry at the back: a description is appended, a None is
      dropped. */
  lemma PresentSnoc(xs: seq<Option<string>>, x: Option<string>)
    ensures Present(xs + [x]) == Present(xs) + (if x.Some? then [x.value] else [])
  {
    PresentAppend(xs, [x]);
    assert [x][1..] == [];
  }

  /** The legible phrase: the descriptions found, joined by single spaces. */
  function LegibleTags(table: Table, tags: Dict, features: seq<string>): Result<string>
  {
    match Collected(table, tags, features)
    case Failure => Failure
    case Success(xs) => Success(Join(Present(xs), " "))
  }

  /** `convert_to_legible_tags`. */
  method ConvertToLegibleTags(table: Table, tags: Dict, features: seq<string>) returns (r: Result<string>)
    ensures r == LegibleTags(table, tags, features)
  {
    var legible: seq<Option<string>> := [];
    var i := 0;
    while i < |features|
      invariant 0 <= i <= |features|
      invariant Collected(table, tags, features[..i]) == Success(legible)
    {
      var feature := features[i];
      CollectedStep(table, tags, features, i);
      var tagValue := Get(tags, feature);
      if tagValue.Some? && tagValue.value != "" {
        if feature !in table {
          assert Blocks(table, tags, features[i]);
          CollectedFailure(table, tags, features);
          return Failure;
        }
        legible := legible + [Get(table[feature], tagValue.value)];
      } else {
        assert Contribution(table, tags, feature) == Success([]);
        assert legible + [] == legible;
      }
      i := i + 1;
    }
    assert features[..i] == features;
    r := Success(Join(Present(legible), " "));
  }

  /** The conversion fails exactly when some listed feature is blocked. */
  lemma {:induction false} CollectedFailure(table: Table, tags: Dict, features: seq<string>)
    ensures Collected(table, tags, features).Failure? <==>
            exists f :: f in features && Blocks(table, tags, f)
  {
    if features != [] {
      var init, last := features[..|features| - 1], features[|features| - 1];
      CollectedFailure(table, tags, init);
      assert features == init + [last];
      assert forall f :: f in features <==> f in init || f == last;
    }
  }

  /** A word with no non-empty value for any listed feature yields the empty
      phrase. */
  lemma {:induction false} NoTagsNoPhrase(table: Table, tags: Dict, features: seq<string>)
    requires forall i :: 0 <= i < |features| ==>
               Get(tags, features[i]).None? || Get(tags, features[i]).value == ""
    ensures Collected(table, tags, features) == Success([])
    ensures LegibleTags(table, tags, features) == Success("")
  {
    if features != [] {
      var init := features[..|features| - 1];
      assert forall i :: 0 <= i < |init| ==> init[i] == features[i];
      NoTagsNoPhrase(table, tags, init);
      assert Contribution(table, tags, features[|features| - 1]) == Success([]);
      var none: seq<Option<string>> := [];
      assert none + none == none;
    }
    assert Present([]) == [];
  }

  /** The table describes value `v` of feature `f` as `s`, and the word
      carries `v` for `f`. */
  predicate Describes(table: Table, tags: Dict, f: string, s: string)
  {
    && Get(tags, f).Some? && Get(tags, f).value != ""
    && f in table && Get(table[f], Get(tags, f).value) == Some(s)
  }

  /** Every description, wrapped as present. */
  function Wrapped(labels: seq<string>): (r: seq<Option<string>>)
    ensures |r| == |labels| && forall i :: 0 <= i < |labels| ==> r[i] == Some(labels[i])
  {
    seq(|labels|, i requires 0 <= i < |labels| => Some(labels[i]))
  }

  /** A described feature contributes exactly its description. */
  lemma DescribedContribution(table: Table, tags: Dict, f: string, s: string)
    requires Describes(table, tags, f, s)
    ensures Contribution(table, tags, f) == Success([Some(s)])
  {
  }

  /** When every listed feature is described, every one of them contributes
      its description, in the order of the feature list. */
  lemma {:induction false} CollectedAllDescribed(table: Table, tags: Dict, features: seq<string>, labels: seq<string>)
    requires |labels| == |features|
    requires forall i :: 0 <= i < |features| ==> Describes(table, tags, features[i], labels[i])
    ensures Collected(table, tags, features) == Success(Wrapped(labels))
  {
    if features != [] {
      var n := |features| - 1;
      var init, before := features[..n], labels[..n];
      forall i | 0 <= i < n
        ensures Describes(table, tags, init[i], before[i])
      {
        assert init[i] == features[i] && before[i] == labels[i];
      }
      CollectedAllDescribed(table, tags, init, before);
      DescribedContribution(table, tags, features[n], labels[n]);
      CollectedSnoc(table, tags, features, Wrapped(before), [Some(labels[n])]);
      WrappedSnoc(labels);
    }
  }

  /** The list collected from a non-empty feature list is the one collected
      before the last feature, followed by the last feature's contribution. */
  lemma CollectedSnoc(table: Table, tags: Dict, features: seq<string>, acc: seq<Option<string>>, c: seq<Option<string>>)
    requires features != []
    requires Collected(table, tags, features[..|features| - 1]) == Success(acc)
    requires Contribution(table, tags, features[|features| - 1]) == Success(c)
    ensures Collected(table, tags, features) == Success(acc + c)
  {
  }

  /** The wrapped descriptions grow by one at the end. */
  lemma WrappedSnoc(labels: seq<string>)
    requires labels != []
    ensures Wrapped(labels) == Wrapped(labels[..|labels| - 1]) + [Some(labels[|labels| - 1])]
  {
  }

  /** ... and the phrase is those descriptions joined by spaces. */
  lemma AllDescribed(table: Table, tags: Dict, features: seq<string>, labels: seq<string>)
    requires |labels| == |features|
    requires forall i :: 0 <= i < |features| ==> Describes(table, tags, features[i], labels[i])
    ensures LegibleTags(table, tags, features) == Success(Join(labels, " "))
  {
    CollectedAllDescribed(table, tags, features, labels);
    PresentAllSome(labels);
  }

  /** Filtering a list with no None in it keeps it whole. */
  lemma {:induction false} PresentAllSome(labels: seq<string>)
    ensures Present(Wrapped(labels)) == labels
  {
    if labels != [] {
      PresentAllSome(labels[1..]);
      assert Wrapped(labels)[1..] == Wrapped(labels[1..]);
    }
  }

  /** The table lists every member of every category under its tag value
      (the capitalised member name, or the person digit), described by the
      capitalised label of the member. */
  predicate DescribesAllMembers(table: Table)
  {
    && (forall c: Case :: "Case" in table && Get(table["Case"], Capitalize(c.Name())) == Some(Capitalize(c.Label())))
    && (forall n: Number :: "Number" in table && Get(table["Number"], Capitalize(n.Name())) == Some(Capitalize(n.Label())))
    && (forall g: Gender :: "Gender" in table && Get(table["Gender"], Capitalize(g.Name())) == Some(Capitalize(g.Label())))
    && (forall p: Person :: "Person" in table && Get(table["Person"], PersonValue(p)) == Some(Capitalize(p.Label())))
    && (forall t: Tense :: "Tense" in table && Get(table["Tense"], Capitalize(t.Name())) == Some(Capitalize(t.Label())))
  }

  /** Three described features give the three descriptions, space-separated. */
  lemma ThreeDescribed(table: Table, tags: Dict, f0: string, f1: string, f2: string, l0: string, l1: string, l2: string)
    requires Describes(table, tags, f0, l0) && Describes(table, tags, f1, l1) && Describes(table, tags, f2, l2)
    ensures LegibleTags(table, tags, [f0, f1, f2]) == Success(l0 + " " + l1 + " " + l2)
  {
    var fs, ls := [f0, f1, f2], [l0, l1, l2];
    forall i | 0 <= i < 3 ensures Describes(table, tags, fs[i], ls[i]) {
      if i == 0 {} else if i == 1 {} else {}
    }
    AllDescribed(table, tags, fs, ls);
    JoinThree(l0, l1, l2, " ");
  }

  /** With such a table, converting the tags of a noun feature set over the
      nominal features gives the same phrase as the feature set's own
      rendering. */
  lemma NominalPhraseIsRendering(table: Table, c: Case, n: Number, g: Gender)
    requires DescribesAllMembers(table)
    ensures LegibleTags(table, TagsOf(NounFeatureSet(c, n, g)), NominalFeatures)
         == Success(NounFeatureSet(c, n, g).Render())
  {
    NounTagsDescribed(table, c, n, g);
    ThreeDescribed(table, TagsOf(NounFeatureSet(c, n, g)), "Case", "Number", "Gender",
                   Capitalize(c.Label()), Capitalize(n.Label()), Capitalize(g.Label()));
  }

  lemma NounTagsDescribed(table: Table, c: Case, n: Number, g: Gender)
    requires DescribesAllMembers(table)
    ensures var tags := TagsOf(NounFeatureSet(c, n, g));
            && Describes(table, tags, "Case", Capitalize(c.Label()))
            && Describes(table, tags, "Number", Capitalize(n.Label()))
            && Describes(table, tags, "Gender", Capitalize(g.Label()))
  {
    var tags := TagsOf(NounFeatureSet(c, n, g));
    GetOfThree("Case", Capitalize(c.Name()), "Number", Capitalize(n.Name()), "Gender", Capitalize(g.Name()));
    assert Get(table["Case"], Capitalize(c.Name())) == Some(Capitalize(c.Label()));
    assert Get(table["Number"], Capitalize(n.Name())) == Some(Capitalize(n.Label()));
    assert Get(table["Gender"], Capitalize(g.Name())) == Some(Capitalize(g.Label()));
  }

  /** The same agreement for a verb feature set over the verbal features. */
  lemma VerbalPhraseIsRendering(table: Table, p: Person, n: Number, t: Tense)
    requires DescribesAllMembers(table)
    ensures LegibleTags(table, TagsOf(VerbFeatureSet(p, n, t)), VerbalFeatures)
         == Success(VerbFeatureSet(p, n, t).Render())
  {
    VerbTagsDescribed(table, p, n, t);
    ThreeDescribed(table, TagsOf(VerbFeatureSet(p, n, t)), "Person", "Number", "Tense",
                   Capitalize(p.Label()), Capitalize(n.Label()), Capitalize(t.Label()));
  }

  lemma VerbTagsDescribed(table: Table, p: Person, n: Number, t: Tense)
    requires DescribesAllMembers(table)
    ensures var tags := TagsOf(VerbFeatureSet(p, n, t));
            && Describes(table, tags, "Person", Capitalize(p.Label()))
            && Describes(table, tags, "Number", Capitalize(n.Label()))
            && Describes(table, tags, "Tense", Capitalize(t.Label()))
  {
    var tags := TagsOf(VerbFeatureSet(p, n, t));
    GetOfThree("Tense", Capitalize(t.Name()), "Number", Capitalize(n.Name()), "Person", PersonValue(p));
    assert Get(table["Person"], PersonValue(p)) == Some(Capitalize(p.Label()));
    assert Get(table["Number"], Capitalize(n.Name())) == Some(Capitalize(n.Label()));
    assert Get(table["Tense"], Capitalize(t.Name())) == Some(Capitalize(t.Label()));
  }

  /** Visiting two runs of features one after the other: the collected lists
      are concatenated, and a failure in either run is a failure. */
  lemma {:induction false} CollectedAppend(table: Table, tags: Dict, a: seq<string>, b: seq<string>)
    ensures var ca := Collected(table, tags, a);
            var cb := Collected(table, tags, b);
            Collected(table, tags, a + b)
              == if ca.Failure? || cb.Failure? then Failure else Success(ca.value + cb.value)
    decreases |b|
  {
    if b == [] {
      assert a + b == a;
      var ca := Collected(table, tags, a);
      if ca.Success? {
        assert ca.value + [] == ca.value;
      }
    } else {
      var front, x := b[..|b| - 1], b[|b| - 1];
      CollectedAppend(table, tags, a, front);
      assert (a + b)[..|a + b| - 1] == a + front;
      assert (a + b)[|a + b| - 1] == x;
      var ca, cf, cx := Collected(table, tags, a), Collected(table, tags, front), Contribution(table, tags, x);
      if ca.Success? && cf.Success? && cx.Success? {
        assert (ca.value + cf.value) + cx.value == ca.value + (cf.value + cx.value);
      }
    }
  }

  /** The feature adds nothing to the phrase: the word has no value or an
      empty one for it, or the table lists the feature but not the value. */
  predicate Silent(table: Table, tags: Dict, feature: string)
  {
    || Get(tags, feature).None?
    || Get(tags, feature).value == ""
    || (feature in table && Get(table[feature], Get(tags, feature).value).None?)
  }

  /** A silent feature can be struck from the list of features anywhere
      without changing the outcome, success or failure. */
  lemma SilentFeatureDropped(table: Table, tags: Dict, pre: seq<string>, f: string, post: seq<string>)
    requires Silent(table, tags, f)
    ensures LegibleTags(table, tags, pre + [f] + post) == LegibleTags(table, tags, pre + post)
  {
    var c := Contribution(table, tags, f).value;
    assert c == [] || c == [None];
    assert Present(c) == [] by {
      if c == [None] { assert c[1..] == []; }
    }
    assert [f][..0] == [];
    assert [] + c == c;
    assert Collected(table, tags, [f]) == Success(c);
    CollectedAppend(table, tags, pre, [f]);
    CollectedAppend(table, tags, pre + [f], post);
    CollectedAppend(table, tags, pre, post);
    var cp, cq := Collected(table, tags, pre), Collected(table, tags, post);
    if cp.Success? && cq.Success? {
      PresentAppend(cp.value + c, cq.value);
      PresentAppend(cp.value, c);
      assert Present(cp.value) + [] == Present(cp.value);
      PresentAppend(cp.value, cq.value);
    }
  }
}
