/**
 * `compare_emotions_results` (comparer.py): the scores of two emotion
 * classifiers, labels lower-cased, summed into six fixed groups of related
 * labels. The first model's score for a group counts a missing label as 0.0;
 * the second model's score is absent when none of the group's labels occur.
 */
module Comparer {
  import opened Wrappers
  import opened Dicts

  /** One entry of the first model's `"scored_labels"` list. */
  datatype ScoredLabel = ScoredLabel(name: string, score: real)

  /** The first model's result, through its `"scored_labels"` member if it has one. */
  datatype NlpResult = NlpResult(scoredLabels: Option<seq<ScoredLabel>>)

  /** The second model's result: emotion name to score (a JSON null is `None`). */
  type TteResult = Dict<string, Option<real>>

  /** `{"nlp_model": ..., "tte_model": ...}` for one group. */
  datatype GroupScore = GroupScore(nlpModel: real, tteModel: Option<real>)

  /** The groups, in the order the result lists them. */
  const Groups: seq<(string, seq<string>)> := [
    ("joy/happy", ["joy", "happy"]),
    ("anger/angry", ["anger", "angry"]),
    ("sadness/sad", ["sadness", "sad"]),
    ("fear", ["fear"]),
    ("surprise", ["surprise"]),
    ("love", ["love"])
  ]

  /** A label some group collects. */
  ghost predicate Grouped(emotion: string) {
    exists i | 0 <= i < |Groups| :: emotion in Groups[i].1
  }

  // ---------------------------------------------------------------------
  // Lower-casing
  // ---------------------------------------------------------------------

  /** `str.lower()` on one character (ASCII letters only). */
  function LowerChar(c: char): char
  {
    if 'A' <= c <= 'Z' then (c as int - 'A' as int + 'a' as int) as char else c
  }

  /** `str.lower()` */
  function Lower(s: string): (r: string)
    ensures |r| == |s|
    ensures forall i | 0 <= i < |s| :: r[i] == LowerChar(s[i])
  {
    seq(|s|, i requires 0 <= i < |s| => LowerChar(s[i]))
  }

  /** Lower-casing twice is lower-casing once. */
  lemma LowerIdempotent(s: string)
    ensures Lower(Lower(s)) == Lower(s)
  {
    assert forall i | 0 <= i < |s| :: LowerChar(LowerChar(s[i])) == LowerChar(s[i]);
  }

  /** `{k.lower(): v for k, v in items}`: later items win on a shared lower-cased key. */
  function LowerKeys<V>(items: Dict<string, V>): Dict<string, V>
    decreases |items|
  {
    if items == [] then []
    else
      var n := |items| - 1;
      Put(LowerKeys(items[..n]), Lower(items[n].0), items[n].1)
  }

  /** The dict holds a label exactly when some item's key lower-cases to it. */
  lemma {:induction false} LowerKeysKeys<V>(items: Dict<string, V>)
    ensures forall l :: l in Keys(LowerKeys(items)) <==> exists i | 0 <= i < |items| :: Lower(items[i].0) == l
  {
    if items != [] {
      var n := |items| - 1;
      LowerKeysKeys(items[..n]);
      PutKeys(LowerKeys(items[..n]), Lower(items[n].0), items[n].1);
      forall l ensures l in Keys(LowerKeys(items)) <==> exists i | 0 <= i < |items| :: Lower(items[i].0) == l {
        if l in Keys(LowerKeys(items[..n])) {
          var i :| 0 <= i < n && Lower(items[..n][i].0) == l;
          assert items[..n][i] == items[i];
        }
        if exists i | 0 <= i < |items| :: Lower(items[i].0) == l {
          var i :| 0 <= i < |items| && Lower(items[i].0) == l;
          if i < n {
            assert items[..n][i] == items[i];
          }
        }
      }
    }
  }

  /** A label takes the value of the last item whose key lower-cases to it. */
  lemma {:induction false} LowerKeysLast<V>(items: Dict<string, V>, i: int)
    requires 0 <= i < |items|
    requires forall j | i < j < |items| :: Lower(items[j].0) != Lower(items[i].0)
    ensures Get(LowerKeys(items), Lower(items[i].0)) == Some(items[i].1)
  {
    var n := |items| - 1;
    var front := LowerKeys(items[..n]);
    GetPut(front, Lower(items[n].0), items[n].1, Lower(items[i].0));
    if i < n {
      assert items[..n][i] == items[i];
      forall j | i < j < n ensures Lower(items[..n][j].0) != Lower(items[..n][i].0) {
        assert items[..n][j] == items[j];
      }
      LowerKeysLast(items[..n], i);
    }
  }

  /** Lower-casing the keys first changes nothing. */
  lemma {:induction false} LowerKeysLowered<V>(items: Dict<string, V>)
    ensures LowerKeys(LowerAll(items)) == LowerKeys(items)
    decreases |items|
  {
    if items != [] {
      var n := |items| - 1;
      assert LowerAll(items)[..n] == LowerAll(items[..n]);
      LowerKeysLowered(items[..n]);
      LowerIdempotent(items[n].0);
    }
  }

  /** The items with their keys lower-cased, in order. */
  function LowerAll<V>(items: Dict<string, V>): (r: Dict<string, V>)
    ensures |r| == |items|
    ensures forall i | 0 <= i < |items| :: r[i] == (Lower(items[i].0), items[i].1)
  {
    seq(|items|, i requires 0 <= i < |items| => (Lower(items[i].0), items[i].1))
  }

  // ---------------------------------------------------------------------
  // Group scores
  // ---------------------------------------------------------------------

  /** `scored_labels` as (label, score) items. */
  function LabelItems(scored: seq<ScoredLabel>): Dict<string, real>
  {
    seq(|scored|, i requires 0 <= i < |scored| => (scored[i].name, scored[i].score))
  }

  /** `emotions1`: `{item["label"].lower(): item["score"] for item in nlp_result.get("scored_labels", [])}` */
  function NlpEmotions(nlp: NlpResult): Dict<string, real>
  {
    LowerKeys(LabelItems(if nlp.scoredLabels.Some? then nlp.scoredLabels.value else []))
  }

  /** `sum(emotions1.get(label, 0.0) for label in labels)` */
  function NlpScore(emotions: Dict<string, real>, labels: seq<string>): real
  {
    if labels == [] then 0.0
    else (if labels[0] in Keys(emotions) then Get(emotions, labels[0]).value else 0.0) + NlpScore(emotions, labels[1..])
  }

  /** `[emotions2.get(label, None) for label in labels if label in emotions2]` */
  function TtePresent(emotions: Dict<string, Option<real>>, labels: seq<string>): (vs: seq<Option<real>>)
    ensures vs == [] <==> forall l | l in labels :: l !in Keys(emotions)
    ensures |vs| <= |labels|
    ensures forall v :: v in vs <==> exists l | l in labels :: l in Keys(emotions) && v == Get(emotions, l).value
  {
    if labels == [] then []
    else
      assert forall l :: l in labels <==> l == labels[0] || l in labels[1..] by {
        assert labels == [labels[0]] + labels[1..];
      }
      if labels[0] in Keys(emotions) then [Get(emotions, labels[0]).value] + TtePresent(emotions, labels[1..])
      else TtePresent(emotions, labels[1..])
  }

  /** One value per present label, in label order: the comprehension maps a concatenation piecewise. */
  lemma {:induction false} TtePresentAppend(emotions: Dict<string, Option<real>>, a: seq<string>, b: seq<string>)
    ensures TtePresent(emotions, a + b) == TtePresent(emotions, a) + TtePresent(emotions, b)
  {
    if a == [] {
      assert a + b == b;
    } else {
      assert (a + b)[0] == a[0] && (a + b)[1..] == a[1..] + b;
      TtePresentAppend(emotions, a[1..], b);
    }
  }

  /** `sum(value for value in values if value is not None)` */
  function SumPresent(values: seq<Option<real>>): real
  {
    if values == [] then 0.0
    else (if values[0].Some? then values[0].value else 0.0) + SumPresent(values[1..])
  }

  /** The second model's score for a group: absent when none of its labels occur. */
  function TteScore(emotions: Dict<string, Option<real>>, labels: seq<string>): Option<real>
  {
    var present := TtePresent(emotions, labels);
    if present == [] then None else Some(SumPresent(present))
  }

  /** `compare_emotions_results`: one entry per group, in group order. */
  function CompareEmotions(nlp: NlpResult, tte: TteResult): Dict<string, GroupScore>
  {
    var emotions1 := NlpEmotions(nlp);
    var emotions2 := LowerKeys(tte);
    seq(|Groups|, i requires 0 <= i < |Groups| =>
      (Groups[i].0, GroupScore(NlpScore(emotions1, Groups[i].1), TteScore(emotions2, Groups[i].1))))
  }

  // ---------------------------------------------------------------------
  // Properties
  // ---------------------------------------------------------------------

  /** The result has exactly the six group names as keys, each once, in group order. */
  lemma CompareKeys(nlp: NlpResult, tte: TteResult)
    ensures var r := CompareEmotions(nlp, tte);
            && DistinctKeys(r)
            && Keys(r) == GroupNames()
            && forall i | 0 <= i < |r| :: r[i].0 == Groups[i].0
  {
    var r := CompareEmotions(nlp, tte);
    GroupKeys(r);
  }

  /** A dict keyed by the group names in group order has exactly those keys, each once. */
  lemma GroupKeys<V>(r: Dict<string, V>)
    requires |r| == |Groups| && forall i | 0 <= i < |r| :: r[i].0 == Groups[i].0
    ensures DistinctKeys(r)
    ensures Keys(r) == GroupNames()
  {
    NamesDistinct();
    GroupKeySet(r);
  }

  lemma GroupKeySet<V>(r: Dict<string, V>)
    requires |r| == |Groups| && forall i | 0 <= i < |r| :: r[i].0 == Groups[i].0
    ensures Keys(r) == GroupNames()
  {
    forall k | k in GroupNames() ensures k in Keys(r) {
      var i :| 0 <= i < |Groups| && Groups[i].0 == k;
      KeysAt(r, i);
    }
    forall k | k in Keys(r) ensures k in GroupNames() {
      var i := KeyIndex(r, k);
    }
  }

  /** The names of the groups. */
  function GroupNames(): set<string>
  {
    set i | 0 <= i < |Groups| :: Groups[i].0
  }

  /** No two groups share a name. */
  lemma NamesDistinct()
    ensures forall i, j | 0 <= i < j < |Groups| :: Groups[i].0 != Groups[j].0
  {
    forall i, j | 0 <= i < j < |Groups| ensures Groups[i].0 != Groups[j].0 {
      assert Groups[i].0[0] != Groups[j].0[0] || |Groups[i].0| != |Groups[j].0|;
    }
  }

  /** Lookups that agree on a group's labels give the group the same first-model score. */
  lemma {:induction false} NlpScoreFrame(a: Dict<string, real>, b: Dict<string, real>, labels: seq<string>)
    requires forall l | l in labels :: Get(a, l) == Get(b, l)
    ensures NlpScore(a, labels) == NlpScore(b, labels)
  {
    if labels != [] {
      assert labels[0] in labels;
      NlpScoreFrame(a, b, labels[1..]);
    }
  }

  /** Lookups that agree on a group's labels give the group the same second-model score. */
  lemma {:induction false} TtePresentFrame(a: Dict<string, Option<real>>, b: Dict<string, Option<real>>, labels: seq<string>)
    requires forall l | l in labels :: Get(a, l) == Get(b, l)
    ensures TtePresent(a, labels) == TtePresent(b, labels)
  {
    if labels != [] {
      assert labels[0] in labels;
      TtePresentFrame(a, b, labels[1..]);
    }
  }

  /** Without `"scored_labels"` every group's first-model score is 0.0. */
  lemma NoScoredLabels(tte: TteResult)
    ensures forall i | 0 <= i < |Groups| :: CompareEmotions(NlpResult(None), tte)[i].1.nlpModel == 0.0
  {
    assert NlpEmotions(NlpResult(None)) == [];
    forall i | 0 <= i < |Groups| ensures NlpScore([], Groups[i].1) == 0.0 {
      EmptyNlpScore(Groups[i].1);
    }
  }

  lemma {:induction false} EmptyNlpScore(labels: seq<string>)
    ensures NlpScore([], labels) == 0.0
  {
    if labels != [] {
      EmptyNlpScore(labels[1..]);
    }
  }

  /**
   * The second model's score for a group is absent exactly when no emotion
   * of its result lower-cases to one of the group's labels.
   */
  lemma TteAbsent(nlp: NlpResult, tte: TteResult, g: int)
    requires 0 <= g < |Groups|
    ensures CompareEmotions(nlp, tte)[g].1.tteModel.None? <==>
            forall l, j | l in Groups[g].1 && 0 <= j < |tte| :: Lower(tte[j].0) != l
  {
    LowerKeysKeys(tte);
  }

  /** The first model's score for a label present in its result is the last score given to it. */
  lemma NlpLastScore(scored: seq<ScoredLabel>, i: int)
    requires 0 <= i < |scored|
    requires forall j | i < j < |scored| :: Lower(scored[j].name) != Lower(scored[i].name)
    ensures Get(NlpEmotions(NlpResult(Some(scored))), Lower(scored[i].name)) == Some(scored[i].score)
  {
    var items := LabelItems(scored);
    LowerKeysLast(items, i);
  }

  /** Labels are matched case-insensitively: lower-casing both inputs first changes nothing. */
  lemma CaseInsensitive(scored: seq<ScoredLabel>, tte: TteResult)
    ensures CompareEmotions(NlpResult(Some(LowerLabels(scored))), LowerAll(tte)) == CompareEmotions(NlpResult(Some(scored)), tte)
  {
    assert LabelItems(LowerLabels(scored)) == LowerAll(LabelItems(scored));
    LowerKeysLowered(LabelItems(scored));
    LowerKeysLowered(tte);
  }

  /** The scored labels with their labels lower-cased. */
  function LowerLabels(scored: seq<ScoredLabel>): (r: seq<ScoredLabel>)
    ensures |r| == |scored|
    ensures forall i | 0 <= i < |scored| :: r[i] == ScoredLabel(Lower(scored[i].name), scored[i].score)
  {
    seq(|scored|, i requires 0 <= i < |scored| => ScoredLabel(Lower(scored[i].name), scored[i].score))
  }

  /** A first-model label that belongs to no group leaves the result unchanged. */
  lemma UngroupedNlpLabel(scored: seq<ScoredLabel>, extra: ScoredLabel, tte: TteResult)
    requires !Grouped(Lower(extra.name))
    ensures CompareEmotions(NlpResult(Some(scored + [extra])), tte) == CompareEmotions(NlpResult(Some(scored)), tte)
  {
    var items := LabelItems(scored + [extra]);
    assert items[..|items| - 1] == LabelItems(scored);
    var before := NlpEmotions(NlpResult(Some(scored)));
    forall g | 0 <= g < |Groups|
      ensures NlpScore(NlpEmotions(NlpResult(Some(scored + [extra]))), Groups[g].1) == NlpScore(before, Groups[g].1)
    {
      forall l | l in Groups[g].1 ensures Get(NlpEmotions(NlpResult(Some(scored + [extra]))), l) == Get(before, l) {
        GetPut(before, Lower(extra.name), extra.score, l);
      }
      NlpScoreFrame(NlpEmotions(NlpResult(Some(scored + [extra]))), before, Groups[g].1);
    }
  }

  /** A second-model emotion that belongs to no group leaves the result unchanged. */
  lemma UngroupedTteLabel(nlp: NlpResult, tte: TteResult, extra: (string, Option<real>))
    requires !Grouped(Lower(extra.0))
    ensures CompareEmotions(nlp, tte + [extra]) == CompareEmotions(nlp, tte)
  {
    var items := tte + [extra];
    assert items[..|items| - 1] == tte;
    var before := LowerKeys(tte);
    forall g | 0 <= g < |Groups|
      ensures TtePresent(LowerKeys(items), Groups[g].1) == TtePresent(before, Groups[g].1)
    {
      forall l | l in Groups[g].1 ensures Get(LowerKeys(items), l) == Get(before, l) {
        GetPut(before, Lower(extra.0), extra.1, l);
      }
      TtePresentFrame(LowerKeys(items), before, Groups[g].1);
    }
  }
}
