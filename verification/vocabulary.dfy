/**
 The skill vocabulary: the set of known skill phrases read one per line from
 the skill-list file. Each line is stripped of surrounding whitespace and
 lower-cased; empty lines are dropped. The file itself is not modelled: the
 loader takes the lines it would have read.
 */
module Vocabulary {
  import opened Text

  /** A vocabulary entry as the loader produces it: non-empty, without outer
      whitespace, and without upper-case ASCII letters. */
  predicate IsNormalized(skill: string) {
    skill != [] && Trimmed(skill) && NoUpper(skill)
  }

  /** `line.strip().lower()`: the normalised form of one line of the
      skill-list file; empty exactly when the line is blank. */
  function NormalizeLine(line: string): (skill: string)
    ensures skill == [] <==> AllSpace(line)
    ensures skill != [] ==> IsNormalized(skill)
    ensures |skill| <= |line|
  {
    StripBlank(line);
    ToLower(Strip(line))
  }

  /** An entry that is already normalised survives normalisation unchanged,
      so a skill list written from a vocabulary reads back as that vocabulary. */
  lemma NormalizeLineFixesNormalized(skill: string)
    requires IsNormalized(skill)
    ensures NormalizeLine(skill) == skill
  {
    StripTrimmed(skill);
    ToLowerNoUpper(skill);
  }

  /** Normalising twice is normalising once. */
  lemma NormalizeLineIdempotent(line: string)
    ensures NormalizeLine(NormalizeLine(line)) == NormalizeLine(line)
  {
    var skill := NormalizeLine(line);
    if skill != [] {
      NormalizeLineFixesNormalized(skill);
    }
  }

  /** The entries a list of lines yields: the normalised form of every
      non-blank line. */
  function EntriesOf(lines: seq<string>): set<string> {
    set i | 0 <= i < |lines| && NormalizeLine(lines[i]) != [] :: NormalizeLine(lines[i])
  }

  /** `load_skill_list` over the lines of the skill-list file, read in order:
      every non-blank line contributes its normalised form, nothing else is
      added, and no entry is empty. A file that cannot be opened gives no
      lines and so the empty vocabulary. */
  method LoadSkillList(lines: seq<string>) returns (vocab: set<string>)
    ensures vocab == EntriesOf(lines)
    ensures forall skill :: skill in vocab ==> IsNormalized(skill)
    ensures forall i :: 0 <= i < |lines| && !AllSpace(lines[i]) ==> NormalizeLine(lines[i]) in vocab
    ensures lines == [] ==> vocab == {}
  {
    vocab := {};
    for k := 0 to |lines|
      invariant vocab == EntriesOf(lines[..k])
    {
      var skill := NormalizeLine(lines[k]);
      if skill != [] {
        vocab := vocab + {skill};
      }
      assert lines[..k + 1] == lines[..k] + [lines[k]];
      EntriesOfSnoc(lines[..k], lines[k]);
    }
    assert lines[..|lines|] == lines;
  }

  /** A read error abandons the rest of the file but keeps what was read: the
      entries of any leading part of the file are among the entries of the
      whole file. */
  lemma EntriesOfPrefix(lines: seq<string>, k: nat)
    requires k <= |lines|
    ensures EntriesOf(lines[..k]) <= EntriesOf(lines)
  {
    forall skill | skill in EntriesOf(lines[..k]) ensures skill in EntriesOf(lines) {
      var i :| 0 <= i < k && NormalizeLine(lines[..k][i]) != [] && NormalizeLine(lines[..k][i]) == skill;
      assert lines[..k][i] == lines[i];
    }
  }

  /** Reading one more line adds its normalised form, if it is not blank. */
  lemma EntriesOfSnoc(lines: seq<string>, line: string)
    ensures EntriesOf(lines + [line]) == EntriesOf(lines) + (if NormalizeLine(line) != [] then {NormalizeLine(line)} else {})
  {
    var all := lines + [line];
    forall x | x in EntriesOf(all) ensures x in EntriesOf(lines) || x == NormalizeLine(line) {
      var i :| 0 <= i < |all| && NormalizeLine(all[i]) != [] && NormalizeLine(all[i]) == x;
      if i < |lines| {
        assert all[i] == lines[i];
      }
    }
    forall x | x in EntriesOf(lines) ensures x in EntriesOf(all) {
      var i :| 0 <= i < |lines| && NormalizeLine(lines[i]) != [] && NormalizeLine(lines[i]) == x;
      assert all[i] == lines[i];
    }
    if NormalizeLine(line) != [] {
      assert all[|lines|] == line;
    }
  }

  /** Each line contributes at most one entry. */
  lemma {:induction false} EntriesOfSize(lines: seq<string>)
    ensures |EntriesOf(lines)| <= |lines|
  {
    if lines != [] {
      var init, last := lines[..|lines| - 1], lines[|lines| - 1];
      EntriesOfSize(init);
      assert lines == init + [last];
      EntriesOfSnoc(init, last);
    }
  }

  /** A skill list whose every line is already a normalised entry reads back
      as exactly the set of its lines. */
  lemma LoadRoundTrip(lines: seq<string>)
    requires forall i :: 0 <= i < |lines| ==> IsNormalized(lines[i])
    ensures EntriesOf(lines) == set skill | skill in lines
  {
    forall i | 0 <= i < |lines| ensures NormalizeLine(lines[i]) == lines[i] {
      NormalizeLineFixesNormalized(lines[i]);
    }
  }
}
