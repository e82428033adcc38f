/**
 One analysis: the skills of the résumé and of the job description are
 extracted with the same vocabulary, the job-description skills are matched
 against the résumé skills, and a suggestion is made for every missing skill.
 Reading the uploaded files, tokenising them and rendering the page are not
 part of this module: it starts from the two token sequences.
 */
module Analysis {
  import opened Extraction
  import opened Matching
  import opened Recommendations

  /** The skill pipeline of the analysis request. Every skill it reports is a
      vocabulary entry found in the job description, the three groups
      partition those skills, and there is one suggestion per missing skill. */
  method Analyze(resumeTokens: seq<string>, jdTokens: seq<string>, vocab: set<string>)
    returns (resumeSkills: set<string>, m: MatchResult, suggestions: seq<string>)
    ensures resumeSkills == Extract(resumeTokens, vocab)
    ensures m == Match(resumeSkills, Extract(jdTokens, vocab))
    ensures Partitions(m, Extract(jdTokens, vocab))
    ensures m.matched + m.partial + m.missing <= vocab
    ensures m.matched <= resumeSkills && m.partial !! resumeSkills && m.missing !! resumeSkills
    ensures |suggestions| == |m.missing|
    ensures forall skill :: skill in m.missing ==> Recommendation(skill) in suggestions
  {
    resumeSkills := ExtractSkills(resumeTokens, vocab);
    var jdSkills := ExtractSkills(jdTokens, vocab);
    m := MatchSkills(resumeSkills, jdSkills);
    suggestions := Recommend(m.missing);
  }
}
