/**
 Skill extraction: the skills of one document, given its normalised token
 sequence and the skill vocabulary. A token that is itself a vocabulary entry
 is a skill (single-word pass); a vocabulary entry containing a space is a
 skill when it occurs anywhere in the tokens joined by single spaces
 (multi-word pass).
 */
module Extraction {
  import opened Text

  /** A multi-word vocabulary entry, recognised by the space it contains. */
  predicate IsPhrase(skill: string) {
    ' ' in skill
  }

  /** Whether `skill` is found in the tokens by one of the two passes. */
  predicate Found(tokens: seq<string>, skill: string) {
    skill in tokens || (IsPhrase(skill) && IsSubstring(skill, Join(tokens)))
  }

  /** Reference definition: the vocabulary entries found in the tokens. */
  function Extract(tokens: seq<string>, vocab: set<string>): set<string> {
    set skill | skill in vocab && Found(tokens, skill)
  }

  /** `extract_skills`: the single-word pass over the tokens, then the
      multi-word pass over the vocabulary. Every skill returned is a
      vocabulary entry that is a token or a phrase occurring in the joined
      text, and every such entry is returned. */
  method ExtractSkills(tokens: seq<string>, vocab: set<string>) returns (extracted: set<string>)
    ensures extracted == Extract(tokens, vocab)
    ensures extracted <= vocab
    ensures forall word :: word in tokens && word in vocab ==> word in extracted
    ensures forall skill :: skill in vocab && IsPhrase(skill) && IsSubstring(skill, Join(tokens)) ==> skill in extracted
    ensures forall skill :: skill in extracted ==> skill in tokens || (IsPhrase(skill) && IsSubstring(skill, Join(tokens)))
  {
    extracted := {};
    for i := 0 to |tokens|
      invariant extracted == set word | word in tokens[..i] && word in vocab
    {
      var word := tokens[i];
      if word in vocab {
        extracted := extracted + {word};
      }
      assert tokens[..i + 1] == tokens[..i] + [word];
    }
    assert tokens[..|tokens|] == tokens;
    var singles := extracted;

    var text := Join(tokens);
    var rest := vocab;
    while rest != {}
      invariant rest <= vocab
      invariant extracted == singles + set skill | skill in vocab - rest && IsPhrase(skill) && IsSubstring(skill, text)
      decreases rest
    {
      var skill :| skill in rest;
      if ' ' in skill {
        var occurs := Contains(skill, text);
        if occurs {
          extracted := extracted + {skill};
        }
      }
      rest := rest - {skill};
    }
  }

  /** A phrase made of consecutive tokens is extracted whenever it is in the
      vocabulary. */
  lemma PhraseOfConsecutiveTokens(tokens: seq<string>, vocab: set<string>, i: int, j: int)
    requires 0 <= i < j <= |tokens|
    requires Join(tokens[i..j]) in vocab && IsPhrase(Join(tokens[i..j]))
    ensures Join(tokens[i..j]) in Extract(tokens, vocab)
  {
    JoinWindow(tokens, i, j);
  }

  /** Every skill found in a run of consecutive tokens is found in the whole
      token sequence: more text never loses a skill. */
  lemma ExtractWindow(tokens: seq<string>, vocab: set<string>, i: int, j: int)
    requires 0 <= i <= j <= |tokens|
    ensures Extract(tokens[i..j], vocab) <= Extract(tokens, vocab)
  {
    forall skill | skill in Extract(tokens[i..j], vocab) ensures skill in Extract(tokens, vocab) {
      if skill in tokens[i..j] {
        var k :| 0 <= k < j - i && tokens[i..j][k] == skill;
        assert tokens[i + k] == skill;
      } else {
        SubstringOfWindow(skill, tokens, i, j);
      }
    }
  }

  /** Extraction filters the vocabulary skill by skill: with a smaller
      vocabulary the result is the larger result cut down to it. */
  lemma ExtractRestrictVocabulary(tokens: seq<string>, small: set<string>, large: set<string>)
    requires small <= large
    ensures Extract(tokens, small) == Extract(tokens, large) * small
  {
  }

  /** Substring search on the joined text can report a phrase whose words were
      never tokens: the joined text of ["bigdata", "sciences"] contains
      "data science". */
  lemma PhraseAcrossTokenBoundaries()
    ensures "data science" in Extract(["bigdata", "sciences"], {"data science"})
    ensures "data" !in ["bigdata", "sciences"] && "science" !in ["bigdata", "sciences"]
  {
    var tokens := ["bigdata", "sciences"];
    assert Join(tokens) == "bigdata sciences";
    assert OccursAt("data science", "bigdata sciences", 3);
  }

  /** Multi-word example: "machine learning" is found among
      ["i", "know", "machine", "learning", "well"]. */
  lemma ExtractMultiWordExample()
    ensures "machine learning" in Extract(["i", "know", "machine", "learning", "well"], {"machine learning"})
  {
    var tokens := ["i", "know", "machine", "learning", "well"];
    assert tokens[2..4] == ["machine", "learning"];
    assert Join(tokens[2..4]) == "machine learning";
    PhraseOfConsecutiveTokens(tokens, {"machine learning"}, 2, 4);
  }

  /** Single-word example: with vocabulary {"python", "sql"}, the tokens
      ["python", "developer"] yield exactly {"python"}. */
  lemma ExtractSingleWordExample()
    ensures Extract(["python", "developer"], {"python", "sql"}) == {"python"}
  {
    var tokens := ["python", "developer"];
    assert "python" in tokens;
    assert !IsPhrase("sql") && "sql" !in tokens;
  }
}
