# Skill gap analyzer — skill extraction and matching

This project models the core of a résumé / job-description skill gap analyzer.
The analyzer finds the skills named in each document and sorts the job's skills
into three groups: matched, partially matched and missing. It then writes one
suggestion per missing skill. The model is in Dafny, and the properties below
are proved about it.

- **Vocabulary** (`vocabulary.dfy`): the skill list is read one line at a time.
  Each line is stripped of surrounding whitespace and lower-cased, and blank
  lines are dropped. The loader takes the lines of the file as a parameter.
- **Extraction** (`extraction.dfy`): the skills of one document come from its
  token sequence and the vocabulary. The single-word pass keeps every token that
  is a vocabulary entry. The multi-word pass keeps every vocabulary entry that
  contains a space and occurs as a substring of the tokens joined by single
  spaces. The vocabulary is a parameter, not a global.
- **Matching** (`matching.dfy`): `matched` is the intersection of the résumé
  skills and the job-description skills. A job-description skill that is not on
  the résumé is `partial` when some résumé skill has the same first four
  characters. The comparison uses raw Python slices, so a shorter string is
  compared whole. Every other job-description skill is `missing`.
- **Recommendations** (`recommendations.dfy`): one sentence
  `Learn '<skill>' to improve your match score.` per missing skill, in no
  particular order.
- **Analysis** (`analysis.dfy`): these steps composed, starting from the two
  token sequences.
- **Text** (`text.dfy`): the string operations the others use, written out over
  `seq<char>`. These are `str.strip()`, ASCII `str.lower()`, substring
  containment, and `" ".join(...)`.

Each operation that loops in the source is a method with loop invariants. Sets
are iterated by picking an arbitrary element, as Python's set iteration does.
`Vocabulary.LoadSkillList`, `Extraction.ExtractSkills` and
`Matching.MatchSkills` are proved equal to the reference definitions
`EntriesOf`, `Extract` and `Match`. `Text.Contains` is proved to answer exactly
`IsSubstring`, and `Matching.FindPrefixPartner` exactly `HasPrefixPartner`.
`Recommendations.Recommend` has no reference definition, because its order is
unspecified. Its contract states the length of the list, that every missing
skill gets a suggestion, that every suggestion belongs to a missing skill, and
that no suggestion appears twice. The lemmas relate the reference definitions
to each other and to the inputs.

Points of the code the model follows as written:
- The suggestions are built by iterating a set (app.py:136), so the model
  promises no order, only one distinct suggestion per missing skill.
- The similarity test compares the first four characters of the raw strings,
  not of lemmatised roots (app.py:94).
- An error part-way through the skill-list file keeps the entries already
  added, and a file that cannot be opened gives the empty set (app.py:20-28).
  `Vocabulary.EntriesOfPrefix` and `Vocabulary.LoadSkillList` state these two
  cases.

## Model

| member | source | states |
|---|---|---|
| Text.IsSpace | app.py:23 | the whitespace characters `str.strip()` removes: exactly the characters for which Python's `str.isspace()` holds |
| Text.Strip | app.py:23 | `line.strip()` returns text with no whitespace at either end, never longer than the line |
| Text.StripParts | app.py:23 | strip removes only whitespace: the line is the stripped text with a whitespace run on each side |
| Text.StripBlank | app.py:23-24 | a stripped line is empty exactly when the line was all whitespace, which is the case the `if skill:` test drops |
| Text.StripTrimmed | app.py:23 | a string with no outer whitespace is unchanged by strip |
| Text.ToLower | app.py:23 | lower-casing keeps the length, leaves no upper-case letter, shifts each upper-case letter to its lower-case form, keeps every other character, and maps whitespace to whitespace |
| Text.ToLowerNoUpper | app.py:23 | lower-casing a string with no upper-case letter leaves it unchanged |
| Text.Contains | app.py:79 | the search behind `skill in text` answers true exactly when the skill occurs at some position of the text |
| Text.SubstringTransitive | app.py:79 | substring containment is transitive |
| Text.Join | app.py:77 | `" ".join(tokens)`: the empty string for no tokens, the token itself for one, and otherwise the tokens with a single space between neighbours |
| Text.JoinAppend | app.py:77 | joining two non-empty token runs with single spaces puts exactly one space between their joined texts |
| Text.JoinWindow | app.py:77 | the joined text of any run of consecutive tokens occurs inside the joined text of all the tokens |
| Text.SubstringOfWindow | app.py:77-79 | whatever occurs in the joined text of a run of tokens also occurs in the joined text of all the tokens |
| Vocabulary.NormalizeLine | app.py:23-24 | a normalised line is empty exactly when the line is blank; otherwise it is a non-empty entry with no outer whitespace and no upper-case letter |
| Vocabulary.NormalizeLineFixesNormalized | app.py:23 | normalising a string that is already a valid entry gives back that string |
| Vocabulary.NormalizeLineIdempotent | app.py:23 | normalising twice gives the same result as normalising once |
| Vocabulary.LoadSkillList | app.py:19-28 | the line loop yields the normalised forms of exactly the non-blank lines, and no entry is empty, padded or upper-case; with no lines read (the file could not be opened) the vocabulary is empty |
| Vocabulary.EntriesOfSnoc | app.py:22-25 | reading one more line adds its normalised form when it is not blank, and adds nothing otherwise |
| Vocabulary.EntriesOfPrefix | app.py:20-28 | when reading stops early on an error, the entries kept are a subset of those from the whole file |
| Vocabulary.EntriesOfSize | app.py:22-25 | the vocabulary has at most as many entries as the file has lines |
| Vocabulary.LoadRoundTrip | app.py:22-25 | a skill list whose lines are already normalised entries loads as exactly the set of its lines |
| Extraction.IsPhrase | app.py:79 | the test `" " in skill` that selects multi-word entries: the entry contains a space character |
| Extraction.ExtractSkills | app.py:68-82 | every extracted skill is a vocabulary entry; every token in the vocabulary is extracted; every vocabulary phrase found in the joined text is extracted; nothing else is |
| Extraction.PhraseOfConsecutiveTokens | app.py:77-80 | a vocabulary phrase made of consecutive tokens is always extracted |
| Extraction.ExtractWindow | app.py:72-80 | the skills extracted from a run of consecutive tokens are among those extracted from all the tokens |
| Extraction.ExtractRestrictVocabulary | app.py:72-80 | extraction with a smaller vocabulary gives the larger vocabulary's result cut down to the smaller vocabulary |
| Extraction.PhraseAcrossTokenBoundaries | app.py:77-80 | substring search on the joined text can report a phrase across token boundaries: "data science" is found in ["bigdata", "sciences"] |
| Extraction.ExtractMultiWordExample | app.py:77-80 | "machine learning" is extracted from ["i", "know", "machine", "learning", "well"] |
| Extraction.ExtractSingleWordExample | app.py:72-74 | the tokens ["python", "developer"] with vocabulary {"python", "sql"} give exactly {"python"} |
| Matching.Prefix | app.py:94 | `s[:4]` is a prefix of `s` of length four, or all of `s` when it is shorter, so no index goes out of range |
| Matching.SharePrefix | app.py:94 | the test `skill[:4] == r[:4]`: the two strings have equal prefixes of length at most four, and a shorter string is compared whole |
| Matching.Match | app.py:85-99 | the three groups are pairwise disjoint, their union is the job-description set, and matched is exactly the intersection |
| Matching.FindPrefixPartner | app.py:92-96 | the inner loop with its early exit reports true exactly when some résumé skill shares the candidate's four-character prefix |
| Matching.MatchSkills | app.py:85-99 | the source's loops compute the three groups; each partial skill is off the résumé and shares a prefix with a résumé skill; each missing skill is off the résumé and shares a prefix with none |
| Matching.ShortSharesOnlyWithItself | app.py:94 | a string shorter than four characters shares its prefix only with an identical string |
| Matching.SharePrefixEquivalence | app.py:94 | sharing a prefix is reflexive, symmetric and transitive |
| Matching.ShortSkillNeverPartial | app.py:86-98 | a job skill shorter than four characters is never partial; it is matched exactly when it is on the résumé |
| Matching.MatchEmptyResume | app.py:86-98 | with no résumé skills, matched and partial are empty and missing is the whole job-description set |
| Matching.MatchSelf | app.py:86-87 | matching a set against itself matches every skill; identical skills never become partial |
| Matching.MatchNoSharedPrefix | app.py:91-98 | when no job skill shares a prefix with any résumé skill, nothing is matched or partial and every job skill is missing |
| Matching.PrefixClassesAgree | app.py:91-96 | two off-résumé job skills with the same prefix are either both partial or both missing |
| Matching.MatchRestrictJd | app.py:91-98 | each job skill is classified on its own: matching part of the job-description set gives the full groups cut down to that part |
| Matching.MatchResumeMonotone | app.py:86-98 | a larger résumé never adds missing skills and never removes matched ones |
| Matching.PartialMatchExample | app.py:91-98 | résumé {"java"} against job {"javascript"} gives "javascript" as partial, with nothing matched or missing |
| Matching.ExactMatchExample | app.py:86-98 | résumé {"docker"} against job {"docker"} gives "docker" as matched, with nothing partial or missing |
| Recommendations.Recommendation | app.py:136 | the sentence `Learn '<skill>' to improve your match score.` for one missing skill |
| Recommendations.SkillOfRecommendation | app.py:136 | the skill can be read back from its suggestion sentence |
| Recommendations.RecommendationInjective | app.py:136 | different skills get different suggestion sentences |
| Recommendations.Recommend | app.py:136 | the list has exactly one suggestion for each missing skill, no duplicates, and nothing else |
| Analysis.Analyze | app.py:129-136 | every reported skill is a vocabulary entry found in the job description; the groups partition the job skills; matched skills are on the résumé and the others are not; there is one suggestion per missing skill |

## Left out

- `extract_text` (app.py:34-55): saving the upload and reading PDF or text files is file I/O and a foreign PDF library.
- `preprocess` (app.py:58-65): spaCy tokenisation, stop-word removal and lemmatisation come from an opaque language model. The model takes the token sequence as its input instead.
- `generate_chart` (app.py:103-110): matplotlib drawing and writing the image file.
- The Flask routes `index` and `analyze` (app.py:113-145) and template rendering, including the `sorted(...)` calls that only order the page display. `Analysis.Analyze` models the skill steps of `analyze` (app.py:129-136) and nothing else.
- Opening the skill-list file and printing a message when that fails (app.py:20-21, 26-27). The loader takes the lines as input. A failure is covered by `Vocabulary.EntriesOfPrefix` and `Vocabulary.LoadSkillList`: the vocabulary keeps the lines read before the failure, or is empty if the file never opened.
- Text.ToLower: does not model Python's full Unicode `str.lower()`. Only ASCII A-Z are lower-cased and every other character is kept; this is a chosen simplification. Where it differs: a skill line with a non-ASCII upper-case letter such as "Élan" is lowered to "élan" by Python and would match the lower-cased token "élan", while the model keeps "Élan", so that entry is never extracted.
- The order in which Python iterates sets: the model picks an arbitrary element, so no result depends on an order.
- Python's `" " in skill` is a substring test with a one-character string. It is modelled as character membership (`' ' in skill`), which holds for exactly the same strings.
