/** A worked example with the shipped vocabulary: a résumé mentioning Python,
    SQL and Power BI against a job asking for Python, SQL and Tableau.

    The texts as pasted are
      "I have 5 years of Python and SQL experience with Power BI dashboards."
      "Looking for a candidate skilled in Python, SQL, and Tableau."
    and normalise to
      "i have 5 years of python and sql experience with power bi dashboards."
      "looking for a candidate skilled in python, sql, and tableau."
    Each is written as a concatenation of short pieces, which lets the
    verifier reason about its characters. A keyword is shown absent from a
    text either by a character of the keyword that the text lacks, or by two
    adjacent characters of the keyword that are never adjacent in the text. */
module Scenario {
  import opened Normalize
  import opened Skills
  import opened PdfText
  import opened Pipeline

  const RawResume: string :=
    "I have 5 years of " + "Python and SQL " + "experience with " + "Power BI dashboards."

  const RawJob: string :=
    "Looking for a " + "candidate skilled " + "in Python, SQL, " + "and Tableau."

  const ResumeText: string :=
    "i have 5 years of " + "python and sql " + "experience with " + "power bi dashboards."

  const JobText: string :=
    "looking for a " + "candidate skilled " + "in python, sql, " + "and tableau."

  /** The character x occurs in text only at the given positions. */
  predicate OnlyAt(text: string, x: char, positions: set<int>) {
    forall i :: 0 <= i < |text| && text[i] == x ==> i in positions
  }

  /** The characters the résumé text is made of. */
  const ResumeAlphabet: set<char> := {
    ' ', '.', '5', 'a', 'b', 'c', 'd', 'e', 'f', 'h', 'i', 'l', 'n', 'o', 'p', 'q', 'r', 's',
    't', 'v', 'w', 'x', 'y'
  }

  /** The characters the job text is made of. */
  const JobAlphabet: set<char> := {
    ' ', ',', '.', 'a', 'b', 'c', 'd', 'e', 'f', 'g', 'h', 'i', 'k', 'l', 'n', 'o', 'p', 'q',
    'r', 's', 't', 'u', 'y'
  }

  // ---------------------------------------------------------------------------
  // The résumé's skills
  // ---------------------------------------------------------------------------

  lemma ResumeCharacters() ensures CharsWithin(ResumeText, ResumeAlphabet) {}

  lemma ResumeAfterC()
    ensures FollowedBy(ResumeText, 'c', {'e'})
  {
    assert OnlyAt(ResumeText, 'c', {41});
    assert ResumeText[42] == 'e';
  }

  lemma ResumeAfterL()
    ensures FollowedBy(ResumeText, 'l', {' '})
  {
    assert OnlyAt(ResumeText, 'l', {31});
    assert ResumeText[32] == ' ';
  }

  lemma ResumeAfterW()
    ensures FollowedBy(ResumeText, 'w', {'e', 'i'})
  {
    assert OnlyAt(ResumeText, 'w', {44, 51});
    assert ResumeText[45] == 'i' && ResumeText[52] == 'e';
  }

  lemma ResumeAfterX()
    ensures FollowedBy(ResumeText, 'x', {'p'})
  {
    assert OnlyAt(ResumeText, 'x', {34});
    assert ResumeText[35] == 'p';
  }

  /** No keyword other than Python, SQL and Power BI occurs in a text with the
      résumé's characters and character successions. */
  lemma ResumeLacksOtherSkills(text: string)
    requires CharsWithin(text, ResumeAlphabet)
    requires FollowedBy(text, 'c', {'e'})
    requires FollowedBy(text, 'l', {' '})
    requires FollowedBy(text, 'w', {'e', 'i'})
    requires FollowedBy(text, 'x', {'p'})
    ensures forall skill :: skill in SkillKeywords && skill !in {"python", "sql", "power bi"} ==> !OccursIn(skill, text)
  {
    AbsentCharNotFound("java", text, ResumeAlphabet, 0);
    AbsentCharNotFound("c++", text, ResumeAlphabet, 1);
    AbsentPairNotFound("excel", text, {'p'}, 1);
    AbsentCharNotFound("tableau", text, ResumeAlphabet, 6);
    AbsentCharNotFound("machine learning", text, ResumeAlphabet, 0);
    AbsentCharNotFound("deep learning", text, ResumeAlphabet, 12);
    AbsentPairNotFound("nlp", text, {' '}, 1);
    AbsentPairNotFound("data analysis", text, {' '}, 8);
    AbsentCharNotFound("data visualization", text, ResumeAlphabet, 8);
    AbsentCharNotFound("communication", text, ResumeAlphabet, 2);
    AbsentCharNotFound("problem solving", text, ResumeAlphabet, 6);
    AbsentCharNotFound("teamwork", text, ResumeAlphabet, 3);
    AbsentPairNotFound("leadership", text, {' '}, 0);
    AbsentCharNotFound("project management", text, ResumeAlphabet, 3);
    AbsentPairNotFound("aws", text, {'e', 'i'}, 1);
    AbsentCharNotFound("azure", text, ResumeAlphabet, 1);
    AbsentCharNotFound("git", text, ResumeAlphabet, 0);
    AbsentCharNotFound("docker", text, ResumeAlphabet, 3);
    AbsentCharNotFound("kubernetes", text, ResumeAlphabet, 0);
    AbsentCharNotFound("linux", text, ResumeAlphabet, 3);
    AbsentCharNotFound("html", text, ResumeAlphabet, 2);
    AbsentPairNotFound("css", text, {'e'}, 0);
    AbsentCharNotFound("javascript", text, ResumeAlphabet, 0);
  }

  /** The résumé yields exactly Python, SQL and Power BI. */
  lemma ResumeSkills()
    ensures SkillsIn(ResumeText, SkillKeywords) == {"python", "sql", "power bi"}
  {
    assert OccursAt("python", ResumeText, 18);
    assert OccursAt("sql", ResumeText, 29);
    assert OccursAt("power bi", ResumeText, 49);
    ResumeCharacters();
    ResumeAfterC();
    ResumeAfterL();
    ResumeAfterW();
    ResumeAfterX();
    ResumeLacksOtherSkills(ResumeText);
    SkillsInExactly(ResumeText, SkillKeywords, {"python", "sql", "power bi"});
  }

  // ---------------------------------------------------------------------------
  // The job's skills
  // ---------------------------------------------------------------------------

  lemma JobCharacters() ensures CharsWithin(JobText, JobAlphabet) {}

  lemma JobAfterE()
    ensures FollowedBy(JobText, 'e', {' ', 'a', 'd'})
  {
    assert OnlyAt(JobText, 'e', {22, 29, 56});
    assert JobText[23] == ' ' && JobText[30] == 'd' && JobText[57] == 'a';
  }

  lemma JobAfterG()
    ensures FollowedBy(JobText, 'g', {' '})
  {
    assert OnlyAt(JobText, 'g', {6});
    assert JobText[7] == ' ';
  }

  lemma JobAfterN()
    ensures FollowedBy(JobText, 'n', {' ', ',', 'd', 'g'})
  {
    assert OnlyAt(JobText, 'n', {5, 16, 33, 40, 49});
    assert JobText[6] == 'g' && JobText[17] == 'd' && JobText[34] == ' ' && JobText[41] == ',' && JobText[50] == 'd';
  }

  lemma JobAfterS()
    ensures FollowedBy(JobText, 's', {'k', 'q'})
  {
    assert OnlyAt(JobText, 's', {24, 43});
    assert JobText[25] == 'k' && JobText[44] == 'q';
  }

  /** No keyword other than Python, SQL and Tableau occurs in a text with the
      job's characters and character successions. */
  lemma JobLacksOtherSkills(text: string)
    requires CharsWithin(text, JobAlphabet)
    requires FollowedBy(text, 'e', {' ', 'a', 'd'})
    requires FollowedBy(text, 'g', {' '})
    requires FollowedBy(text, 'n', {' ', ',', 'd', 'g'})
    requires FollowedBy(text, 's', {'k', 'q'})
    ensures forall skill :: skill in SkillKeywords && skill !in {"python", "sql", "tableau"} ==> !OccursIn(skill, text)
  {
    AbsentCharNotFound("java", text, JobAlphabet, 0);
    AbsentCharNotFound("c++", text, JobAlphabet, 1);
    AbsentCharNotFound("excel", text, JobAlphabet, 1);
    AbsentCharNotFound("power bi", text, JobAlphabet, 2);
    AbsentCharNotFound("machine learning", text, JobAlphabet, 0);
    AbsentPairNotFound("deep learning", text, {' ', 'a', 'd'}, 1);
    AbsentPairNotFound("nlp", text, {' ', ',', 'd', 'g'}, 0);
    AbsentPairNotFound("data analysis", text, {' ', ',', 'd', 'g'}, 6);
    AbsentCharNotFound("data visualization", text, JobAlphabet, 5);
    AbsentCharNotFound("communication", text, JobAlphabet, 2);
    AbsentCharNotFound("problem solving", text, JobAlphabet, 6);
    AbsentCharNotFound("teamwork", text, JobAlphabet, 3);
    AbsentPairNotFound("leadership", text, {' ', 'a', 'd'}, 4);
    AbsentCharNotFound("project management", text, JobAlphabet, 3);
    AbsentCharNotFound("aws", text, JobAlphabet, 1);
    AbsentCharNotFound("azure", text, JobAlphabet, 1);
    AbsentPairNotFound("git", text, {' '}, 0);
    AbsentPairNotFound("docker", text, {' ', 'a', 'd'}, 4);
    AbsentPairNotFound("kubernetes", text, {' ', 'a', 'd'}, 3);
    AbsentCharNotFound("linux", text, JobAlphabet, 4);
    AbsentCharNotFound("html", text, JobAlphabet, 2);
    AbsentPairNotFound("css", text, {'k', 'q'}, 1);
    AbsentCharNotFound("javascript", text, JobAlphabet, 0);
  }

  /** The job yields exactly Python, SQL and Tableau. */
  lemma JobSkills()
    ensures SkillsIn(JobText, SkillKeywords) == {"python", "sql", "tableau"}
  {
    assert OccursAt("python", JobText, 35);
    assert OccursAt("sql", JobText, 43);
    assert OccursAt("tableau", JobText, 52);
    JobCharacters();
    JobAfterE();
    JobAfterG();
    JobAfterN();
    JobAfterS();
    JobLacksOtherSkills(JobText);
    SkillsInExactly(JobText, SkillKeywords, {"python", "sql", "tableau"});
  }


  /** Python and SQL are matched; Tableau is missing. */
  lemma WorkedExample()
    ensures CompareSkills(SkillsIn(ResumeText, SkillKeywords), SkillsIn(JobText, SkillKeywords))
         == SkillGap({"python", "sql"}, {"tableau"})
  {
    ResumeSkills();
    JobSkills();
    var resumeSkills: set<string> := {"python", "sql", "power bi"};
    var jobSkills: set<string> := {"python", "sql", "tableau"};
    assert "power bi" != "tableau" && "python" != "tableau" && "sql" != "tableau";
    assert resumeSkills * jobSkills == {"python", "sql"};
    assert jobSkills - resumeSkills == {"tableau"};
  }

  // ---------------------------------------------------------------------------
  // Normalisation and the whole analysis
  // ---------------------------------------------------------------------------

  lemma RawResumePrintable() ensures PrintableAscii(RawResume) {}

  lemma RawResumeSpaces() ensures OnlyAt(RawResume, ' ', {1, 6, 8, 14, 17, 24, 28, 32, 43, 48, 54, 57}) {}

  lemma RawResumeSpacing()
    ensures forall i :: 0 <= i < |RawResume| - 1 ==> !(RawResume[i] == ' ' && RawResume[i + 1] == ' ')
  {
    RawResumeSpaces();
    forall i | 0 <= i < |RawResume| - 1 && RawResume[i] == ' '
      ensures RawResume[i + 1] != ' '
    {
      assert i in {1, 6, 8, 14, 17, 24, 28, 32, 43, 48, 54, 57};
    }
  }


  lemma RawResumeLowercase()
    ensures Lowercase(RawResume) == ResumeText
  {
    LowercaseConcat("I have 5 years of " + "Python and SQL " + "experience with ", "Power BI dashboards.");
    LowercaseConcat("I have 5 years of " + "Python and SQL ", "experience with ");
    LowercaseConcat("I have 5 years of ", "Python and SQL ");
    assert Lowercase("I have 5 years of ") == "i have 5 years of ";
    assert Lowercase("Python and SQL ") == "python and sql ";
    assert Lowercase("experience with ") == "experience with ";
    assert Lowercase("Power BI dashboards.") == "power bi dashboards.";
  }

  /** clean_text turns the pasted résumé into its normalised text. */
  lemma RawResumeCleans()
    ensures CleanText(RawResume) == ResumeText
  {
    RawResumePrintable();
    RawResumeSpacing();
    PrintableSingleSpaced(RawResume);
    assert Trimmed(RawResume);
    CleanTextOfSingleSpaced(RawResume);
    RawResumeLowercase();
  }

  lemma RawJobPrintable() ensures PrintableAscii(RawJob) {}

  lemma RawJobSpaces() ensures OnlyAt(RawJob, ' ', {7, 11, 13, 23, 31, 34, 42, 47, 51}) {}

  lemma RawJobSpacing()
    ensures forall i :: 0 <= i < |RawJob| - 1 ==> !(RawJob[i] == ' ' && RawJob[i + 1] == ' ')
  {
    RawJobSpaces();
    forall i | 0 <= i < |RawJob| - 1 && RawJob[i] == ' '
      ensures RawJob[i + 1] != ' '
    {
      assert i in {7, 11, 13, 23, 31, 34, 42, 47, 51};
    }
  }


  lemma RawJobLowercase()
    ensures Lowercase(RawJob) == JobText
  {
    LowercaseConcat("Looking for a " + "candidate skilled " + "in Python, SQL, ", "and Tableau.");
    LowercaseConcat("Looking for a " + "candidate skilled ", "in Python, SQL, ");
    LowercaseConcat("Looking for a ", "candidate skilled ");
    assert Lowercase("Looking for a ") == "looking for a ";
    assert Lowercase("candidate skilled ") == "candidate skilled ";
    assert Lowercase("in Python, SQL, ") == "in python, sql, ";
    assert Lowercase("and Tableau.") == "and tableau.";
  }

  /** clean_text turns the pasted job description into its normalised text. */
  lemma RawJobCleans()
    ensures CleanText(RawJob) == JobText
  {
    RawJobPrintable();
    RawJobSpacing();
    PrintableSingleSpaced(RawJob);
    assert Trimmed(RawJob);
    CleanTextOfSingleSpaced(RawJob);
    RawJobLowercase();
  }

  /** The whole analysis of a one-page résumé with the pasted texts: Python
      and SQL matched, Tableau missing, and the short résumé text shown in
      full. */
  lemma AnalysisWorkedExample()
    ensures Analysis(Some([Some(RawResume)]), RawJob)
         == Some(Report(ResumeText, JobText, {"python", "sql", "power bi"}, {"python", "sql", "tableau"},
                        SkillGap({"python", "sql"}, {"tableau"}), ResumeText))
  {
    assert ConcatPages([Some(RawResume)]) == RawResume by {
      assert [Some(RawResume)][..0] == [];
    }
    RawResumeCleans();
    RawJobCleans();
    ResumeSkills();
    JobSkills();
    WorkedExample();
  }
}
