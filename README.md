# ATS résumé score checker: a verified model of the text pipeline

The app takes a résumé uploaded as a PDF and a pasted job description. It
normalises both texts and looks up a fixed vocabulary of 26 skill keywords in
each. It then reports which of the job's skills the résumé has (matched) and
which it lacks (missing), and shows the résumé text truncated to 2000
characters. This project models that pipeline in Dafny and proves its
properties:

- `normalize.dfy` (module `Normalize`) models `clean_text`.
  - It is a composition of three pure string functions: collapse every
    whitespace run to one space, strip both ends, lowercase.
  - It is characterised against an independent reference,
    `" ".join(text.split()).lower()`.
  - Its results are shown to be single-spaced, trimmed, lowercase and
    idempotent.
- `skills.dfy` (module `Skills`) models `SKILL_KEYWORDS` and
  `extract_skills`.
  - `extract_skills` loops over the vocabulary and adds hits to a set. It is
    modelled as a method with a loop invariant, proved against the function
    `SkillsIn`.
  - `skill in text` is modelled as a substring search, `Contains`. It is
    proved equivalent to occurrence at some offset.
  - Every keyword is already in the form `clean_text` produces. So cleaning
    never loses a keyword found in the raw text, though lowercasing can add
    one.
- `pdf_text.dfy` (module `PdfText`) models the page loop of
  `extract_text_from_pdf`.
  - A document is the sequence of values its pages' `extract_text()` calls
    return.
  - Pages that yield `None` or `""` add nothing.
- `pipeline.dfy` (module `Pipeline`) models the analysis in lines 55-65:
  - the guard on the upload and the job description;
  - normalisation;
  - skill extraction;
  - the matched/missing set expressions;
  - the preview on line 84.
- `scenario.dfy` (module `Scenario`) works one example through the whole
  pipeline.
  - Résumé: "I have 5 years of Python and SQL experience with Power BI
    dashboards."
  - Job: "Looking for a candidate skilled in Python, SQL, and Tableau."
  - Result: matched {python, sql} and missing {tableau}.

The model follows `app.py` in three places where one might expect an error:

- A résumé from which no text can be extracted is not an error. It is
  analysed as the empty text: nothing is matched and every skill of the job is
  missing.
- The guard `if uploaded_file and job_description` tests the raw description.
  A description made only of whitespace passes it and normalises to the empty
  text.
- When the guard fails, nothing is reported. The model returns `None` and
  raises no error.

## Model

| member | source | states |
|---|---|---|
| Normalize.IsWhitespace | app.py:29-30 | The characters `\s` matches and `strip()` removes: those for which `str.isspace()` holds. `Normalize.ToLowerKeepsWhitespace` relates it to lowercasing |
| Normalize.ToLower | app.py:30 | Lowercasing one character never yields an uppercase ASCII letter, changes only uppercase letters, and keeps a letter's place in the alphabet |
| Normalize.Lowercase | app.py:30 | `lower()` keeps the length and leaves no uppercase letter |
| Normalize.TrimStart | app.py:30 | The left half of `str.strip()`: the result is no longer than the input and does not start with whitespace |
| Normalize.TrimStartIsSuffix | app.py:30 | What the left strip keeps is a suffix of its input |
| Normalize.TrimStartRemovesWhitespace | app.py:30 | What the left strip removes is all whitespace |
| Normalize.TrimEnd | app.py:30 | The right half of `str.strip()`: the result is a prefix of the input that does not end in whitespace |
| Normalize.TrimEndRemovesWhitespace | app.py:30 | What the right strip removes is all whitespace |
| Normalize.Strip | app.py:30 | `str.strip()` leaves no whitespace at either end |
| Normalize.TrimStartSkips | app.py:30 | Leading whitespace padding does not change what the left strip returns |
| Normalize.TrimEndSkips | app.py:30 | Trailing whitespace padding does not change what the right strip returns |
| Normalize.StripPadded | app.py:30 | Stripping a trimmed text padded with whitespace on both sides gives back exactly that text |
| Normalize.CollapseWhitespace | app.py:29 | `re.sub(r'\s+', ' ', …)` never lengthens the text and keeps a non-empty text non-empty. `Normalize.CollapseIsJoin` gives its value on a text not starting with whitespace, and `Normalize.StripCollapseIsJoin` gives the value of stripping it on every text |
| Normalize.CleanText | app.py:28-30 | `clean_text` never lengthens its input. `Normalize.CleanTextIsJoinedWords` gives its value against an independent reference |
| Normalize.CollapseWord | app.py:29 | `re.sub(r'\s+', ' ', …)` copies a leading run of non-whitespace unchanged |
| Normalize.CollapseAfterWord | app.py:29 | The substitution copies the text's leading word and continues after it |
| Normalize.TrimStartConcat | app.py:30 | Stripping the left of a concatenation keeps the second part whole when the first holds a non-whitespace character or the second does not start with whitespace |
| Normalize.CollapseConcat | app.py:29 | The substitution works on either side of a boundary separately unless a whitespace run crosses it |
| Normalize.WordsAreWords | app.py:29 | The reference `str.split()` yields only non-empty words without whitespace |
| Normalize.CollapseIsJoin | app.py:29 | On a text not starting with whitespace, the substitution equals the text's words joined by single spaces, plus one space exactly when the text ends in whitespace |
| Normalize.StripCollapseIsJoin | app.py:29-30 | Substituting and then stripping gives `" ".join(text.split())` |
| Normalize.CleanTextIsJoinedWords | app.py:28-30 | `clean_text(t)` equals `" ".join(t.split()).lower()` for every text |
| Normalize.JoinWordsShape | app.py:29-30 | Joining whitespace-free non-empty words with single spaces gives a single-spaced, trimmed text, non-empty when there is a word |
| Normalize.ToLowerKeepsWhitespace | app.py:30 | Lowercasing neither creates nor removes whitespace and leaves whitespace characters unchanged |
| Normalize.LowercaseKeepsShape | app.py:30 | Lowercasing a single-spaced trimmed text keeps it single-spaced and trimmed and makes it lowercase |
| Normalize.CleanTextShape | app.py:29-30 | Every result of `clean_text` has no two adjacent whitespace characters, uses only the plain space as whitespace, has no whitespace at either end, and is lowercase |
| Normalize.CollapseSingleSpaced | app.py:29 | The substitution leaves a single-spaced text unchanged |
| Normalize.StripTrimmed | app.py:30 | `strip()` leaves a trimmed text unchanged |
| Normalize.LowercaseLowercase | app.py:30 | `lower()` leaves a lowercase text unchanged |
| Normalize.CleanTextOfSingleSpaced | app.py:28-30 | On a single-spaced trimmed text, `clean_text` only lowercases |
| Normalize.CleanTextIdempotent | app.py:28-30 | `clean_text(clean_text(t)) == clean_text(t)` |
| Normalize.PrintableSingleSpaced | app.py:29 | Printable ASCII text with no two spaces in a row is already single-spaced |
| Normalize.LowercaseConcat | app.py:30 | `lower()` works character by character: it distributes over concatenation |
| Skills.KeywordsAreCleanWords | app.py:10-15 | Every entry of `SKILL_KEYWORDS` is non-empty and lowercase, with single spaces inside and none at either end: one word, or two words joined by one space |
| Skills.WordIsClean | app.py:10-15 | A non-empty run of lowercase letters and `+` is a clean word |
| Skills.TwoWordsAreClean | app.py:10-15 | Two such words joined by one space make a clean word |
| Skills.CleanWordUnchanged | app.py:28-30 | `clean_text` leaves a clean word unchanged, so every keyword is a fixed point of `clean_text` |
| Skills.Contains | app.py:36 | `"" in text` always holds, and a pattern longer than the text is never in it. `Skills.ContainsIsOccurrence` gives its meaning |
| Skills.SkillsIn | app.py:33-38 | The skills found lie within the vocabulary. `Skills.SkillsInMeaning` says which |
| Skills.ExtractSkills | app.py:33-38 | The loop over `SKILL_KEYWORDS` returns exactly the keywords the text contains, whatever order the set is walked in |
| Skills.ContainsIsOccurrence | app.py:36 | `skill in text` holds exactly when the skill occurs in the text at some offset |
| Skills.SkillsInMeaning | app.py:33-38 | The skills found are a subset of the vocabulary, and a keyword is found exactly when it is in the vocabulary and occurs in the text |
| Skills.OccursBetween | app.py:36 | A text occurs in any text built around it, right after the prefix |
| Skills.OccursInTransitive | app.py:36 | A substring of a substring of a text is a substring of that text |
| Skills.InnerSkillsFound | app.py:36 | There are no word boundaries: whenever a keyword is found, every keyword occurring inside it is found too |
| Skills.JavascriptYieldsJava | app.py:14 | With the shipped vocabulary, a text yielding "javascript" also yields "java" |
| Skills.SkillsInMonotone | app.py:33-38 | A text yields every skill of any text it contains |
| Skills.EmptyTextHasNoSkills | app.py:10-15 | No keyword is empty, so the empty text yields no skill |
| Skills.AbsentCharNotFound | app.py:36 | A keyword is not found in a text lacking one of its characters |
| Skills.AbsentPairNotFound | app.py:36 | A keyword is not found in a text where two of its adjacent characters never appear next to each other |
| Skills.SkillsInExactly | app.py:33-38 | The skills of a text are exactly a given set of keywords when those occur in it and no other keyword does |
| Skills.CollapseAroundWord | app.py:29 | The substitution copies a clean word through and works on either side of it separately |
| Skills.StripKeepsWord | app.py:30 | `strip()` keeps a clean word that occurs in the text |
| Skills.LowercaseKeepsOccurrence | app.py:30 | `lower()` keeps every lowercase occurrence, at the same offset |
| Skills.CleanTextKeepsWord | app.py:28-30 | A clean word occurring in a text occurs in `clean_text` of it |
| Skills.CleanTextKeepsSkills | app.py:28-38 | Every keyword found in a raw text is found in its `clean_text` too |
| Skills.CleanTextLowercasesWord | app.py:28-30 | `clean_text` of a capitalised word is that word with its first letter lowercased |
| Skills.CleanTextCanAddSkills | app.py:28-38 | The converse fails: "Python" yields no keyword, while its `clean_text` yields "python" |
| PdfText.PageText | app.py:22-24 | What a page adds to the text is empty exactly when `page.extract_text()` is falsy (`None` or `""`) |
| PdfText.ConcatPages | app.py:21-24 | The pages' texts in page order. `PdfText.NoTextIffBlankPages` and `PdfText.PageTextOccurs` say what that text holds |
| PdfText.ExtractText | app.py:18-25 | The page loop returns the pages' texts concatenated in page order, skipping pages that yield `None` or `""` |
| PdfText.ConcatPagesAppend | app.py:21-24 | Splitting a document into two runs of pages splits its text at the same place |
| PdfText.NoTextIffBlankPages | app.py:21-24 | A document yields the empty text exactly when every page yields `None` or `""` |
| PdfText.PageTextOccurs | app.py:21-24 | Each page's text appears in the document's text, right after the text of the pages before it |
| PdfText.PageSkillsFound | app.py:57-61 | A keyword mentioned on any single page is among the skills extracted from `clean_text` of the joined pages, the résumé text the analysis uses |
| Pipeline.CompareSkills | app.py:64-65 | `matched` lies within the résumé's skills and is disjoint from `missing`, `matched` and `missing` together make up exactly the job's skills, and `missing` shares nothing with the résumé's skills |
| Pipeline.GapIsUnique | app.py:64-65 | Any split of the job's skills into a part inside the résumé's skills and a part outside them is the one computed |
| Pipeline.NothingMissingIffCovered | app.py:64-65 | Nothing is missing exactly when the résumé has every skill of the job; then everything is matched |
| Pipeline.Preview | app.py:84 | A text of at most 2000 characters is shown as is. A longer one is shown as its first 2000 characters followed by "...", exactly 2003 characters. The preview never exceeds 2003 characters |
| Pipeline.PreviewIdempotent | app.py:84 | The preview of a preview is the same preview |
| Pipeline.PreviewUnchangedIff | app.py:84 | The preview equals the text exactly when the text has at most 2000 characters, or is 2003 long and already ends in "..." |
| Pipeline.Analysis | app.py:55-65 | The analysis runs exactly when a file is uploaded and the job description is non-empty. Then `matched` lies within the résumé's skills, which lie within the vocabulary, `matched` and `missing` partition the job's skills, which lie within the vocabulary, and `missing` shares nothing with the résumé's skills; by `Pipeline.GapIsUnique` this fixes the split |
| Pipeline.Analyze | app.py:55-65 | Running the steps (page loop, `clean_text`, `extract_skills` twice, set expressions, preview) gives the analysis above |
| Pipeline.AnalysisSkillMeaning | app.py:55-65 | A skill is matched exactly when it is a keyword occurring both in `clean_text` of the résumé's pages and in `clean_text` of the job description. It is missing exactly when it occurs in the latter but not the former |
| Pipeline.SameTextNothingMissing | app.py:57-65 | When the résumé and the job normalise to the same text, nothing is missing and every job skill is matched |
| Pipeline.BlankResumeMissesEverything | app.py:55-65 | A résumé whose pages yield no text is still analysed: its text is empty, nothing is matched and every skill of the job is missing |
| Pipeline.BlankJobHasNoSkills | app.py:55-62 | A job description made only of whitespace passes the guard but normalises to the empty text: no skill is matched or missing |
| Scenario.ResumeSkills | app.py:10-15 | The normalised example résumé yields exactly python, sql and power bi |
| Scenario.JobSkills | app.py:10-15 | The normalised example job yields exactly python, sql and tableau |
| Scenario.WorkedExample | app.py:61-65 | For the example texts, matched is {python, sql} and missing is {tableau} |
| Scenario.RawResumeCleans | app.py:28-30 | `clean_text` turns the pasted example résumé into its lowercase form |
| Scenario.RawJobCleans | app.py:28-30 | `clean_text` turns the pasted example job description into its lowercase form |
| Scenario.AnalysisWorkedExample | app.py:55-65 | The whole analysis of the example, starting from the pasted mixed-case texts, reports matched {python, sql} and missing {tableau}, and shows the résumé text in full |

## Left out

- `compute_similarity` and the match score (app.py:41-45, 60, 69) are not modelled.
  - They call a sentence-embedding model and compute a floating-point cosine
    similarity, rounded to two decimals.
  - A report in this model therefore has no score.
- Loading the embedding model at import time (app.py:7) is an external resource.
- The PyPDF2 reader itself (app.py:19, 22) is not modelled.
  - A document is given as the values its pages' `extract_text()` calls return.
  - The upload is `None` when no file is uploaded.
- The Streamlit UI (app.py:48-53, 67-83) is display only:
  - page setup;
  - widgets and spinner;
  - the comma-joined, sorted display of the skill sets;
  - the "no skills" messages.
- Normalize.ToLower: lowercases ASCII letters only. Python's `str.lower()` covers all of Unicode, including mappings of one character to several, and it also maps some characters that are not letters, such as the Roman numerals U+2160-U+216F. So `Normalize.CleanText` is exact only on texts whose characters are all ASCII.
- Normalize.IsWhitespace: covers the characters for which `str.isspace()` holds, which `\s` matches and `strip()` removes. Dafny characters are Unicode scalar values, so Python strings holding lone surrogates are outside the model.
- Skills.ExtractSkills: Python's iteration order over `SKILL_KEYWORDS` is not modelled. The loop picks the next keyword arbitrarily, and the result is proved not to depend on the order.
- Streamlit's rerun of the whole script on every interaction, and its session state, are not modelled. The model is one run of the analysis.
