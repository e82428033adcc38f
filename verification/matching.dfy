/**
 Skill matching: the job description's skills split three ways against the
 résumé's skills. A skill on both lists is matched; a job-description skill
 absent from the résumé is a partial match when some résumé skill has the same
 first four characters, and missing otherwise.
 */
module Matching {

  /** How many leading characters the partial-match test compares. */
  const PrefixLength: nat := 4

  /** Python's `s[:4]`: the first four characters, or all of `s` when it is
      shorter. Never indexes out of range. */
  function Prefix(s: string): (p: string)
    ensures p <= s
    ensures |p| == if |s| < PrefixLength then |s| else PrefixLength
  {
    s[..if |s| < PrefixLength then |s| else PrefixLength]
  }

  /** The partial-match test `skill[:4] == r[:4]` on the raw strings. */
  predicate SharePrefix(a: string, b: string) {
    Prefix(a) == Prefix(b)
  }

  /** Some résumé skill shares its prefix with `skill`. */
  predicate HasPrefixPartner(skill: string, resume: set<string>) {
    exists r :: r in resume && SharePrefix(skill, r)
  }

  datatype MatchResult = MatchResult(matched: set<string>, partial: set<string>, missing: set<string>)

  /** The three groups partition the job-description skills. */
  predicate Partitions(m: MatchResult, jd: set<string>) {
    && m.matched + m.partial + m.missing == jd
    && m.matched !! m.partial
    && m.matched !! m.missing
    && m.partial !! m.missing
  }

  /** Reference definition of the three groups, skill by skill. */
  function Match(resume: set<string>, jd: set<string>): (m: MatchResult)
    ensures Partitions(m, jd)
    ensures m.matched == resume * jd
  {
    var candidates := jd - resume;
    var partial := set skill | skill in candidates && HasPrefixPartner(skill, resume);
    MatchResult(resume * jd, partial, candidates - partial)
  }

  /** The inner loop of `match_skills`: scan the résumé skills and stop at
      the first whose prefix equals that of `skill`. */
  method FindPrefixPartner(skill: string, resume: set<string>) returns (found: bool)
    ensures found <==> HasPrefixPartner(skill, resume)
  {
    var rest := resume;
    while rest != {}
      invariant rest <= resume
      invariant forall r :: r in resume - rest ==> !SharePrefix(skill, r)
      decreases rest
    {
      var r :| r in rest;
      if Prefix(skill) == Prefix(r) {
        return true;
      }
      rest := rest - {r};
    }
    return false;
  }

  /** `match_skills`: matched is the intersection; every job-description skill
      not on the résumé is partial when a résumé skill shares its prefix and
      missing when none does. */
  method MatchSkills(resume: set<string>, jd: set<string>) returns (m: MatchResult)
    ensures m == Match(resume, jd)
    ensures Partitions(m, jd)
    ensures m.matched == resume * jd
    ensures forall skill :: skill in m.partial ==> skill !in resume && HasPrefixPartner(skill, resume)
    ensures forall skill :: skill in m.missing ==> skill !in resume && forall r :: r in resume ==> !SharePrefix(skill, r)
  {
    var matched := resume * jd;
    var missing := jd - resume;
    var partial: set<string> := {};
    var rest := missing;
    while rest != {}
      invariant rest <= missing
      invariant partial == set skill | skill in missing - rest && HasPrefixPartner(skill, resume)
      decreases rest
    {
      var skill :| skill in rest;
      var found := FindPrefixPartner(skill, resume);
      if found {
        partial := partial + {skill};
      }
      rest := rest - {skill};
    }
    missing := missing - partial;
    m := MatchResult(matched, partial, missing);
  }

  /** A string shorter than four characters is compared whole, so it shares
      its prefix with nothing but itself. */
  lemma ShortSharesOnlyWithItself(a: string, b: string)
    requires |a| < PrefixLength
    ensures SharePrefix(a, b) <==> a == b
  {
    if SharePrefix(a, b) {
      assert |Prefix(b)| == |a|;
    }
  }

  /** Prefix sharing is an equivalence: reflexive, symmetric and transitive. */
  lemma SharePrefixEquivalence(a: string, b: string, c: string)
    ensures SharePrefix(a, a)
    ensures SharePrefix(a, b) ==> SharePrefix(b, a)
    ensures SharePrefix(a, b) && SharePrefix(b, c) ==> SharePrefix(a, c)
  {
  }

  /** A job-description skill shorter than four characters is never a
      partial match: it is matched when on the résumé and missing otherwise. */
  lemma ShortSkillNeverPartial(resume: set<string>, jd: set<string>, skill: string)
    requires skill in jd && |skill| < PrefixLength
    ensures skill !in Match(resume, jd).partial
    ensures skill in Match(resume, jd).matched <==> skill in resume
  {
    if HasPrefixPartner(skill, resume) {
      var r :| r in resume && SharePrefix(skill, r);
      ShortSharesOnlyWithItself(skill, r);
    }
  }

  /** With no résumé skills nothing is matched or partial: every
      job-description skill is missing. */
  lemma MatchEmptyResume(jd: set<string>)
    ensures Match({}, jd) == MatchResult({}, {}, jd)
  {
  }

  /** Matching a skill set against itself matches everything: identical
      skills are never reported as partial. */
  lemma MatchSelf(skills: set<string>)
    ensures Match(skills, skills) == MatchResult(skills, {}, {})
  {
  }

  /** When no job-description skill shares a prefix with any résumé skill,
      nothing is matched or partial and every job-description skill is
      missing. */
  lemma MatchNoSharedPrefix(resume: set<string>, jd: set<string>)
    requires forall s, r :: s in jd && r in resume ==> !SharePrefix(s, r)
    ensures Match(resume, jd) == MatchResult({}, {}, jd)
  {
    assert resume * jd == {} by {
      forall s | s in resume * jd ensures false {
        assert SharePrefix(s, s);
      }
    }
  }

  /** Classification depends only on the skill and the résumé: skills that
      are not on the résumé and share a prefix are either both partial or both
      missing. */
  lemma PrefixClassesAgree(resume: set<string>, jd: set<string>, s: string, t: string)
    requires s in jd - resume && t in jd - resume && SharePrefix(s, t)
    ensures s in Match(resume, jd).partial <==> t in Match(resume, jd).partial
  {
  }

  /** Each skill is classified on its own: matching a part of the
      job-description skills gives the same groups cut down to that part. */
  lemma MatchRestrictJd(resume: set<string>, jd: set<string>, part: set<string>)
    requires part <= jd
    ensures Match(resume, part) == MatchResult(
      Match(resume, jd).matched * part, Match(resume, jd).partial * part, Match(resume, jd).missing * part)
  {
  }

  /** A larger résumé never adds missing skills and never loses matched ones. */
  lemma MatchResumeMonotone(small: set<string>, large: set<string>, jd: set<string>)
    requires small <= large
    ensures Match(large, jd).missing <= Match(small, jd).missing
    ensures Match(small, jd).matched <= Match(large, jd).matched
    ensures Match(small, jd).matched + Match(small, jd).partial <= Match(large, jd).matched + Match(large, jd).partial
  {
  }

  /** "java" on the résumé makes "javascript" a partial match. */
  lemma PartialMatchExample()
    ensures Match({"java"}, {"javascript"}) == MatchResult({}, {"javascript"}, {})
  {
    assert Prefix("javascript") == "java";
    assert SharePrefix("javascript", "java");
    assert "java" != "javascript";
  }

  /** "docker" on both lists is matched and nothing else. */
  lemma ExactMatchExample()
    ensures Match({"docker"}, {"docker"}) == MatchResult({"docker"}, {}, {})
  {
    MatchSelf({"docker"});
  }
}
