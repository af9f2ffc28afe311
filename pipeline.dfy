/** The analysis the app runs once a résumé is uploaded and a job description
    is pasted (app.py, lines 55-65 and the preview on line 84): both texts are
    normalised, the skills of each are extracted, the job's skills are split
    into matched and missing ones, and the résumé text is truncated for
    display. The similarity score is not part of this model. */
module Pipeline {
  import opened Normalize
  import opened Skills
  import opened PdfText

  // ---------------------------------------------------------------------------
  // Matched and missing skills
  // ---------------------------------------------------------------------------

  /** The two skill lists of the report. */
  datatype SkillGap = SkillGap(matched: set<string>, missing: set<string>)

  /** matched_skills and missing_skills: the job's skills, split into those the
      résumé has and those it lacks. */
  function CompareSkills(resumeSkills: set<string>, jobSkills: set<string>): (gap: SkillGap)
    ensures gap.matched <= resumeSkills
    ensures gap.matched !! gap.missing
    ensures gap.matched + gap.missing == jobSkills
    ensures gap.missing !! resumeSkills
  {
    SkillGap(resumeSkills * jobSkills, jobSkills - resumeSkills)
  }

  /** Those properties determine the split: any partition of the job's skills
      into a part inside the résumé's skills and a part outside them is the
      one CompareSkills computes. */
  lemma GapIsUnique(resumeSkills: set<string>, jobSkills: set<string>, gap: SkillGap)
    requires gap.matched <= resumeSkills
    requires gap.matched + gap.missing == jobSkills
    requires gap.missing !! resumeSkills
    ensures gap == CompareSkills(resumeSkills, jobSkills)
  {
    var expected := CompareSkills(resumeSkills, jobSkills);
    assert gap.matched == expected.matched;
    assert gap.missing == expected.missing;
  }

  /** Nothing is missing exactly when the résumé has every skill of the job,
      and then everything the job asks for is matched. */
  lemma NothingMissingIffCovered(resumeSkills: set<string>, jobSkills: set<string>)
    ensures CompareSkills(resumeSkills, jobSkills).missing == {} <==> jobSkills <= resumeSkills
    ensures jobSkills <= resumeSkills ==> CompareSkills(resumeSkills, jobSkills).matched == jobSkills
  {
    if CompareSkills(resumeSkills, jobSkills).missing == {} {
      forall s | s in jobSkills
        ensures s in resumeSkills
      {
        assert s !in jobSkills - resumeSkills;
      }
    }
  }

  // ---------------------------------------------------------------------------
  // Preview of the résumé text
  // ---------------------------------------------------------------------------

  /** Number of characters of the résumé text shown before truncation. */
  const PreviewLimit: nat := 2000

  /** What a truncated preview ends with. */
  const Ellipsis: string := "..."

  /** The expander's text: a text of at most PreviewLimit characters is shown
      as it is; a longer one is cut to its first PreviewLimit characters and
      marked with the ellipsis. */
  function Preview(text: string): (p: string)
    ensures |text| <= PreviewLimit ==> p == text
    ensures |text| > PreviewLimit ==>
      |p| == PreviewLimit + |Ellipsis| && p[..PreviewLimit] == text[..PreviewLimit] && p[PreviewLimit..] == Ellipsis
    ensures |p| <= PreviewLimit + |Ellipsis|
  {
    if |text| > PreviewLimit then text[..PreviewLimit] + Ellipsis else text
  }

  /** Taking the preview of a preview changes nothing. */
  lemma PreviewIdempotent(text: string)
    ensures Preview(Preview(text)) == Preview(text)
  {
    if |text| > PreviewLimit {
      var p := Preview(text);
      assert p[..PreviewLimit] + Ellipsis == p;
    }
  }

  /** The preview is the text itself exactly when the text is short enough,
      or when it already has the shape of a truncated preview. */
  lemma PreviewUnchangedIff(text: string)
    ensures Preview(text) == text <==>
      |text| <= PreviewLimit || (|text| == PreviewLimit + |Ellipsis| && text[PreviewLimit..] == Ellipsis)
  {
    if |text| == PreviewLimit + |Ellipsis| && text[PreviewLimit..] == Ellipsis {
      assert text[..PreviewLimit] + text[PreviewLimit..] == text;
    }
  }

  // ---------------------------------------------------------------------------
  // The analysis
  // ---------------------------------------------------------------------------

  /** Everything the report shows apart from the score. */
  datatype Report = Report(
    resumeText: string,
    jobText: string,
    resumeSkills: set<string>,
    jobSkills: set<string>,
    gap: SkillGap,
    preview: string)

  /** The analysis as a function of the upload (the values its pages'
      extraction returns, or None when no file is uploaded) and of the pasted
      job description. It runs when a file is uploaded and the description is
      non-empty; there is no check on the extracted résumé text. */
  function Analysis(upload: Option<seq<Option<string>>>, jobDescription: string): (r: Option<Report>)
    ensures r.Some? <==> upload.Some? && jobDescription != ""
    ensures r.Some? ==> r.value.gap.matched <= r.value.resumeSkills <= SkillKeywords
    ensures r.Some? ==> r.value.gap.matched + r.value.gap.missing == r.value.jobSkills <= SkillKeywords
    ensures r.Some? ==> r.value.gap.matched !! r.value.gap.missing
    ensures r.Some? ==> r.value.gap.missing !! r.value.resumeSkills
  {
    if upload.Some? && jobDescription != "" then
      var resumeText := CleanText(ConcatPages(upload.value));
      var jobText := CleanText(jobDescription);
      var resumeSkills := SkillsIn(resumeText, SkillKeywords);
      var jobSkills := SkillsIn(jobText, SkillKeywords);
      Some(Report(resumeText, jobText, resumeSkills, jobSkills,
                  CompareSkills(resumeSkills, jobSkills), Preview(resumeText)))
    else
      None
  }

  /** The analysis step by step: extract, normalise, extract skills, compare. */
  method Analyze(upload: Option<seq<Option<string>>>, jobDescription: string) returns (r: Option<Report>)
    ensures r == Analysis(upload, jobDescription)
  {
    if upload.Some? && jobDescription != "" {
      var raw := ExtractText(upload.value);
      var resumeText := CleanText(raw);
      var jobText := CleanText(jobDescription);
      var resumeSkills := ExtractSkills(resumeText);
      var jobSkills := ExtractSkills(jobText);
      var gap := CompareSkills(resumeSkills, jobSkills);
      r := Some(Report(resumeText, jobText, resumeSkills, jobSkills, gap, Preview(resumeText)));
    } else {
      r := None;
    }
  }

  /** A skill is matched exactly when it is a keyword occurring both in the
      cleaned text of the résumé's pages and in the cleaned job description,
      and missing exactly when it occurs in the latter but not the former. */
  lemma AnalysisSkillMeaning(pages: seq<Option<string>>, jobDescription: string, skill: string)
    requires jobDescription != ""
    ensures var gap := Analysis(Some(pages), jobDescription).value.gap;
      var resumeText, jobText := CleanText(ConcatPages(pages)), CleanText(jobDescription);
      && (skill in gap.matched <==>
            skill in SkillKeywords && OccursIn(skill, resumeText) && OccursIn(skill, jobText))
      && (skill in gap.missing <==>
            skill in SkillKeywords && OccursIn(skill, jobText) && !OccursIn(skill, resumeText))
  {
    SkillsInMeaning(CleanText(ConcatPages(pages)), SkillKeywords, skill);
    SkillsInMeaning(CleanText(jobDescription), SkillKeywords, skill);
  }

  /** A résumé whose normalised text equals the job's misses nothing and
      matches every skill of the job. */
  lemma SameTextNothingMissing(pages: seq<Option<string>>, jobDescription: string)
    requires jobDescription != ""
    requires CleanText(ConcatPages(pages)) == CleanText(jobDescription)
    ensures Analysis(Some(pages), jobDescription).value.gap.missing == {}
    ensures Analysis(Some(pages), jobDescription).value.gap.matched
         == Analysis(Some(pages), jobDescription).value.jobSkills
  {
    var report := Analysis(Some(pages), jobDescription).value;
    NothingMissingIffCovered(report.resumeSkills, report.jobSkills);
  }

  /** A résumé from which no page yields text (a scanned image, say) is still
      analysed: its text is empty, nothing is matched and every skill of the
      job is reported missing. */
  lemma BlankResumeMissesEverything(pages: seq<Option<string>>, jobDescription: string)
    requires jobDescription != ""
    requires forall i :: 0 <= i < |pages| ==> Blank(pages[i])
    ensures Analysis(Some(pages), jobDescription).Some?
    ensures Analysis(Some(pages), jobDescription).value.resumeText == ""
    ensures Analysis(Some(pages), jobDescription).value.gap
         == SkillGap({}, Analysis(Some(pages), jobDescription).value.jobSkills)
  {
    NoTextIffBlankPages(pages);
    assert CleanText("") == "";
    EmptyTextHasNoSkills();
  }

  /** A job description made only of whitespace passes the guard (it is not
      the empty string) but normalises to the empty text, which has no
      skills: nothing is matched or missing. */
  lemma BlankJobHasNoSkills(upload: Option<seq<Option<string>>>, jobDescription: string)
    requires upload.Some?
    requires jobDescription != [] && AllWhitespace(jobDescription)
    ensures Analysis(upload, jobDescription).Some?
    ensures Analysis(upload, jobDescription).value.jobText == ""
    ensures Analysis(upload, jobDescription).value.gap == SkillGap({}, {})
  {
    CleanTextIsJoinedWords(jobDescription);
    TrimStartSkips(jobDescription, "");
    assert jobDescription + "" == jobDescription;
    assert Words(jobDescription) == [];
    EmptyTextHasNoSkills();
  }
}
