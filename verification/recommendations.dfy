/**
 Recommendations: one suggestion sentence per missing skill. The missing skills
 form a set, so the suggestions come in no particular order.
 */
module Recommendations {

  const Head := "Learn '"
  const Tail := "' to improve your match score."

  /** The suggestion for one missing skill. */
  function Recommendation(skill: string): string {
    Head + skill + Tail
  }

  /** Reads the skill back out of a suggestion sentence. */
  function SkillOf(sentence: string): string
    requires |Head| + |Tail| <= |sentence|
  {
    sentence[|Head|..|sentence| - |Tail|]
  }

  /** The skill can be read back from its suggestion. */
  lemma SkillOfRecommendation(skill: string)
    ensures |Head| + |Tail| <= |Recommendation(skill)|
    ensures SkillOf(Recommendation(skill)) == skill
  {
    var sentence := Recommendation(skill);
    assert sentence[|Head|..|sentence| - |Tail|] == skill;
  }

  /** Different skills get different suggestions. */
  lemma RecommendationInjective(a: string, b: string)
    requires Recommendation(a) == Recommendation(b)
    ensures a == b
  {
    SkillOfRecommendation(a);
    SkillOfRecommendation(b);
  }

  /** The suggestion list of the analysis page: exactly one suggestion per
      missing skill, no suggestion twice, in an unspecified order. */
  method Recommend(missing: set<string>) returns (sentences: seq<string>)
    ensures |sentences| == |missing|
    ensures forall skill :: skill in missing ==> Recommendation(skill) in sentences
    ensures forall i :: 0 <= i < |sentences| ==> exists skill :: skill in missing && sentences[i] == Recommendation(skill)
    ensures forall i, j :: 0 <= i < j < |sentences| ==> sentences[i] != sentences[j]
  {
    sentences := [];
    ghost var order: seq<string> := [];
    var rest := missing;
    while rest != {}
      invariant rest <= missing
      invariant |order| == |sentences|
      invariant forall i :: 0 <= i < |order| ==> sentences[i] == Recommendation(order[i])
      invariant forall i :: 0 <= i < |order| ==> order[i] in missing - rest
      invariant forall skill :: skill in missing - rest ==> skill in order
      invariant forall i, j :: 0 <= i < j < |order| ==> order[i] != order[j]
      invariant |sentences| + |rest| == |missing|
      decreases rest
    {
      var skill :| skill in rest;
      sentences := sentences + [Recommendation(skill)];
      order := order + [skill];
      rest := rest - {skill};
    }
    assert missing - rest == missing;
    forall i, j | 0 <= i < j < |sentences| ensures sentences[i] != sentences[j] {
      if sentences[i] == sentences[j] {
        RecommendationInjective(order[i], order[j]);
      }
    }
    forall skill | skill in missing ensures Recommendation(skill) in sentences {
      var i :| 0 <= i < |order| && order[i] == skill;
      assert sentences[i] == Recommendation(skill);
    }
  }
}
