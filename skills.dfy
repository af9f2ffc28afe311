/** Keyword skill extraction (extract_skills and SKILL_KEYWORDS in app.py): the
    skills found in a text are the vocabulary entries that occur in it as a
    contiguous substring, with no notion of word boundaries. */
module Skills {
  import opened Normalize

  /** SKILL_KEYWORDS: the fixed vocabulary, lowercase, process-wide. */
  const SkillKeywords: set<string> := {
    "python", "java", "c++", "sql", "excel", "power bi", "tableau", "machine learning",
    "deep learning", "nlp", "data analysis", "data visualization", "communication",
    "problem solving", "teamwork", "leadership", "project management", "aws", "azure",
    "git", "docker", "kubernetes", "linux", "html", "css", "javascript"
  }

  /** pattern occurs in text starting at offset i. */
  predicate OccursAt(pattern: string, text: string, i: int) {
    0 <= i <= |text| - |pattern| && text[i..i + |pattern|] == pattern
  }

  /** `pattern in text` on Python strings, stated by position: pattern occurs
      in text starting at some offset. */
  ghost predicate OccursIn(pattern: string, text: string) {
    exists i :: OccursAt(pattern, text, i)
  }

  /** `pattern in text`, computed by trying each start position in turn. */
  function Contains(text: string, pattern: string): (r: bool)
    decreases |text|
    ensures pattern == [] ==> r
    ensures r ==> |pattern| <= |text|
  {
    pattern <= text || (text != [] && Contains(text[1..], pattern))
  }

  /** The set extract_skills returns: the entries of the vocabulary that the
      text contains. */
  function SkillsIn(text: string, vocabulary: set<string>): (r: set<string>)
    ensures r <= vocabulary
  {
    set skill | skill in vocabulary && Contains(text, skill)
  }

  /** extract_skills: walks the vocabulary (in whatever order the set yields
      it) and adds every entry the text contains to the result. */
  method ExtractSkills(text: string) returns (found: set<string>)
    ensures found == SkillsIn(text, SkillKeywords)
  {
    found := {};
    var remaining := SkillKeywords;
    while remaining != {}
      invariant remaining <= SkillKeywords
      invariant found == SkillsIn(text, SkillKeywords - remaining)
      decreases remaining
    {
      var skill :| skill in remaining;
      if Contains(text, skill) {
        found := found + {skill};
      }
      remaining := remaining - {skill};
    }
  }

  // ---------------------------------------------------------------------------
  // Lemmas
  // ---------------------------------------------------------------------------

  lemma SliceOfSlice(s: string, lo: int, hi: int, i: int, j: int)
    requires 0 <= lo <= hi <= |s| && 0 <= i <= j <= hi - lo
    ensures s[lo..hi][i..j] == s[lo + i..lo + j]
  {
    assert forall k :: 0 <= k < j - i ==> s[lo..hi][i..j][k] == s[lo + i + k];
  }

  /** A text occurs in any text built around it, right after the prefix. */
  lemma OccursBetween(before: string, middle: string, after: string)
    ensures OccursAt(middle, before + middle + after, |before|)
  {
    var text := before + middle + after;
    assert forall k :: 0 <= k < |middle| ==> text[|before|..|before| + |middle|][k] == middle[k];
  }

  /** The search finds a pattern exactly when it occurs at some offset. */
  lemma {:induction false} ContainsIsOccurrence(text: string, pattern: string)
    decreases |text|
    ensures Contains(text, pattern) <==> OccursIn(pattern, text)
  {
    if pattern <= text {
      assert OccursAt(pattern, text, 0);
    } else if text == [] {
      assert forall i :: !OccursAt(pattern, text, i);
    } else {
      ContainsIsOccurrence(text[1..], pattern);
      if OccursIn(pattern, text[1..]) {
        var i :| OccursAt(pattern, text[1..], i);
        assert text[1..] == text[1..|text|];
        SliceOfSlice(text, 1, |text|, i, i + |pattern|);
        assert OccursAt(pattern, text, i + 1);
      }
      if OccursIn(pattern, text) {
        var i :| OccursAt(pattern, text, i);
        assert i != 0;
        SliceOfSlice(text, 1, |text|, i - 1, i - 1 + |pattern|);
        assert OccursAt(pattern, text[1..], i - 1);
      }
    }
  }

  /** A skill is found exactly when it is in the vocabulary and occurs in the
      text; so the result is always a subset of the vocabulary. */
  lemma SkillsInMeaning(text: string, vocabulary: set<string>, skill: string)
    ensures SkillsIn(text, vocabulary) <= vocabulary
    ensures skill in SkillsIn(text, vocabulary) <==> skill in vocabulary && OccursIn(skill, text)
  {
    ContainsIsOccurrence(text, skill);
  }

  /** Occurrence is transitive: a pattern inside a word inside a text is inside
      the text. */
  lemma OccursInTransitive(a: string, b: string, c: string)
    requires OccursIn(a, b) && OccursIn(b, c)
    ensures OccursIn(a, c)
  {
    var i :| OccursAt(a, b, i);
    var j :| OccursAt(b, c, j);
    SliceOfSlice(c, j, j + |b|, i, i + |a|);
    assert OccursAt(a, c, j + i);
  }

  /** No word boundaries: whenever a vocabulary entry is found, every entry
      that occurs inside it is found too. */
  lemma InnerSkillsFound(text: string, vocabulary: set<string>, outer: string, inner: string)
    requires outer in SkillsIn(text, vocabulary)
    requires inner in vocabulary && OccursIn(inner, outer)
    ensures inner in SkillsIn(text, vocabulary)
  {
    SkillsInMeaning(text, vocabulary, outer);
    OccursInTransitive(inner, outer, text);
    SkillsInMeaning(text, vocabulary, inner);
  }

  /** With the shipped vocabulary, a text mentioning "javascript" also yields
      "java". */
  lemma JavascriptYieldsJava(text: string)
    requires "javascript" in SkillsIn(text, SkillKeywords)
    ensures "java" in SkillsIn(text, SkillKeywords)
  {
    assert OccursAt("java", "javascript", 0);
    InnerSkillsFound(text, SkillKeywords, "javascript", "java");
  }

  /** Every skill of a text is a skill of any text that contains it: appending
      or prepending text never loses a skill. */
  lemma SkillsInMonotone(text: string, larger: string, vocabulary: set<string>)
    requires OccursIn(text, larger)
    ensures SkillsIn(text, vocabulary) <= SkillsIn(larger, vocabulary)
  {
    forall skill | skill in SkillsIn(text, vocabulary)
      ensures skill in SkillsIn(larger, vocabulary)
    {
      SkillsInMeaning(text, vocabulary, skill);
      OccursInTransitive(skill, text, larger);
      SkillsInMeaning(larger, vocabulary, skill);
    }
  }

  /** Every character of text is in alphabet. */
  predicate CharsWithin(text: string, alphabet: set<char>) {
    forall i :: 0 <= i < |text| ==> text[i] in alphabet
  }

  /** Wherever x occurs in text, other than at the end, the next character is
      in next. */
  predicate FollowedBy(text: string, x: char, next: set<char>) {
    forall i :: 0 <= i < |text| - 1 && text[i] == x ==> text[i + 1] in next
  }

  /** A pattern does not occur in a text that lacks one of its characters. */
  lemma AbsentCharNotFound(pattern: string, text: string, alphabet: set<char>, j: int)
    requires CharsWithin(text, alphabet)
    requires 0 <= j < |pattern| && pattern[j] !in alphabet
    ensures !OccursIn(pattern, text)
  {
    forall i | 0 <= i <= |text| - |pattern|
      ensures !OccursAt(pattern, text, i)
    {
      assert text[i..i + |pattern|][j] == text[i + j];
    }
  }

  /** A pattern does not occur in a text in which two of its adjacent
      characters are never adjacent. */
  lemma AbsentPairNotFound(pattern: string, text: string, next: set<char>, j: int)
    requires 0 <= j < |pattern| - 1
    requires FollowedBy(text, pattern[j], next) && pattern[j + 1] !in next
    ensures !OccursIn(pattern, text)
  {
    forall i | 0 <= i <= |text| - |pattern|
      ensures !OccursAt(pattern, text, i)
    {
      assert text[i..i + |pattern|][j] == text[i + j];
      assert text[i..i + |pattern|][j + 1] == text[i + j + 1];
    }
  }

  /** The skills of a text are exactly the given entries of the vocabulary
      when those occur in it and no other entry does. */
  lemma SkillsInExactly(text: string, vocabulary: set<string>, present: set<string>)
    requires present <= vocabulary
    requires forall skill :: skill in present ==> OccursIn(skill, text)
    requires forall skill :: skill in vocabulary && skill !in present ==> !OccursIn(skill, text)
    ensures SkillsIn(text, vocabulary) == present
  {
    forall skill | skill in vocabulary
      ensures Contains(text, skill) <==> skill in present
    {
      ContainsIsOccurrence(text, skill);
    }
  }

  // ---------------------------------------------------------------------------
  // Keywords survive clean_text
  // ---------------------------------------------------------------------------

  /** A text already in the form clean_text produces: non-empty, lowercase,
      its only whitespace single plain spaces, none at either end. */
  predicate CleanWord(k: string) {
    k != [] && SingleSpaced(k) && Trimmed(k) && IsLowercase(k)
  }

  /** A character of a keyword's word: a lowercase ASCII letter or '+'. */
  predicate WordChar(c: char) {
    'a' <= c <= 'z' || c == '+'
  }

  /** A non-empty run of word characters. */
  predicate Word(w: string) {
    w != [] && forall c :: c in w ==> WordChar(c)
  }

  /** A single word is a clean word. */
  lemma WordIsClean(w: string)
    requires Word(w)
    ensures CleanWord(w)
  {
    forall i | 0 <= i < |w|
      ensures WordChar(w[i])
    {
      assert w[i] in w;
    }
  }

  /** Two words joined by one space make a clean word. */
  lemma TwoWordsAreClean(a: string, b: string)
    requires Word(a) && Word(b)
    ensures CleanWord(a + " " + b)
  {
    WordIsClean(a);
    WordIsClean(b);
    var s := a + " " + b;
    assert s[|s| - 1] == b[|b| - 1];
    forall i | 0 <= i < |s|
      ensures ToLower(s[i]) == s[i]
      ensures IsWhitespace(s[i]) ==> i == |a| && s[i] == ' '
    {
      if i < |a| {
        assert s[i] == a[i] && a[i] in a;
      } else if i > |a| {
        assert s[i] == b[i - |a| - 1] && b[i - |a| - 1] in b;
      }
    }
  }

  lemma OneWordKeywordsA()
    ensures Word("python") && Word("java") && Word("c++") && Word("sql") && Word("excel")
    ensures Word("tableau") && Word("nlp")
  {
  }

  lemma OneWordKeywordsB()
    ensures Word("communication") && Word("teamwork") && Word("leadership") && Word("aws")
    ensures Word("azure") && Word("git")
  {
  }

  lemma OneWordKeywordsC()
    ensures Word("docker") && Word("kubernetes") && Word("linux") && Word("html") && Word("css")
    ensures Word("javascript")
  {
  }

  lemma TwoWordKeywordsA()
    ensures "power bi" == "power" + " " + "bi" && Word("power") && Word("bi")
    ensures "machine learning" == "machine" + " " + "learning" && Word("machine") && Word("learning")
    ensures "deep learning" == "deep" + " " + "learning" && Word("deep")
    ensures "data analysis" == "data" + " " + "analysis" && Word("data") && Word("analysis")
  {
  }

  lemma TwoWordKeywordsB()
    ensures "data visualization" == "data" + " " + "visualization" && Word("data") && Word("visualization")
    ensures "problem solving" == "problem" + " " + "solving" && Word("problem") && Word("solving")
    ensures "project management" == "project" + " " + "management" && Word("project") && Word("management")
  {
  }

  /** Every entry of SKILL_KEYWORDS is one word, or two words joined by one
      space. */
  lemma KeywordsAreCleanWords()
    ensures forall k :: k in SkillKeywords ==> CleanWord(k)
  {
    OneWordKeywordsA();
    OneWordKeywordsB();
    OneWordKeywordsC();
    forall w | w in {"python", "java", "c++", "sql", "excel", "tableau", "nlp", "communication",
                     "teamwork", "leadership", "aws", "azure", "git", "docker", "kubernetes",
                     "linux", "html", "css", "javascript"}
      ensures CleanWord(w)
    {
      WordIsClean(w);
    }
    TwoWordKeywordsA();
    TwoWordKeywordsB();
    TwoWordsAreClean("power", "bi");
    TwoWordsAreClean("machine", "learning");
    TwoWordsAreClean("deep", "learning");
    TwoWordsAreClean("data", "analysis");
    TwoWordsAreClean("data", "visualization");
    TwoWordsAreClean("problem", "solving");
    TwoWordsAreClean("project", "management");
  }

  /** clean_text leaves a clean word unchanged; in particular every entry of
      SKILL_KEYWORDS is a fixed point of clean_text. */
  lemma CleanWordUnchanged(k: string)
    requires CleanWord(k)
    ensures CleanText(k) == k
  {
    CleanTextOfSingleSpaced(k);
    LowercaseLowercase(k);
  }

  /** The collapse copies a clean word through and works on either side of
      it separately. */
  lemma CollapseAroundWord(a: string, k: string, b: string)
    requires CleanWord(k)
    ensures CollapseWhitespace(a + k + b) == CollapseWhitespace(a) + k + CollapseWhitespace(b)
  {
    CollapseConcat(a, k);
    CollapseConcat(a + k, b);
    CollapseSingleSpaced(k);
  }

  /** Stripping the ends of a text keeps a clean word inside it. */
  lemma StripKeepsWord(a: string, k: string, b: string)
    requires CleanWord(k)
    ensures OccursIn(k, Strip(a + k + b))
  {
    ConcatAssoc(a, k, b);
    TrimStartConcat(a, k + b);
    var u := TrimStart(a) + (k + b);
    var p := |TrimStart(a)|;
    var r := TrimEnd(u);
    TrimEndRemovesWhitespace(u);
    assert u[p + |k| - 1] == k[|k| - 1];
    assert r[p..p + |k|] == u[p..p + |k|];
    assert u[p..p + |k|] == k;
    assert OccursAt(k, r, p);
  }

  /** Lowercasing keeps every lowercase occurrence. */
  lemma LowercaseKeepsOccurrence(k: string, s: string, p: int)
    requires IsLowercase(k) && OccursAt(k, s, p)
    ensures OccursAt(k, Lowercase(s), p)
  {
    forall j | 0 <= j < |k|
      ensures Lowercase(s)[p..p + |k|][j] == k[j]
    {
      assert s[p..p + |k|][j] == s[p + j];
    }
  }

  /** clean_text never loses a clean word: one that occurs in a text occurs
      in the cleaned text. */
  lemma CleanTextKeepsWord(k: string, text: string)
    requires CleanWord(k) && OccursIn(k, text)
    ensures OccursIn(k, CleanText(text))
  {
    var i :| OccursAt(k, text, i);
    var a, b := text[..i], text[i + |k|..];
    assert text == a + k + b;
    CollapseAroundWord(a, k, b);
    var s := CollapseWhitespace(a) + k + CollapseWhitespace(b);
    StripKeepsWord(CollapseWhitespace(a), k, CollapseWhitespace(b));
    var p :| OccursAt(k, Strip(s), p);
    LowercaseKeepsOccurrence(k, Strip(s), p);
  }

  /** Every keyword a text contains is still found after clean_text. */
  lemma CleanTextKeepsSkills(text: string)
    ensures SkillsIn(text, SkillKeywords) <= SkillsIn(CleanText(text), SkillKeywords)
  {
    KeywordsAreCleanWords();
    forall skill | skill in SkillsIn(text, SkillKeywords)
      ensures skill in SkillsIn(CleanText(text), SkillKeywords)
    {
      SkillsInMeaning(text, SkillKeywords, skill);
      CleanTextKeepsWord(skill, text);
      SkillsInMeaning(CleanText(text), SkillKeywords, skill);
    }
  }

  /** The inclusion can be strict: lowercasing can make a keyword appear, as
      with "Python", which holds no keyword until clean_text lowercases it. */
  lemma CleanTextCanAddSkills()
    ensures "python" !in SkillsIn("Python", SkillKeywords)
    ensures "python" in SkillsIn(CleanText("Python"), SkillKeywords)
  {
    assert !Contains("Python", "python") by {
      assert CharsWithin("Python", {'P', 'y', 't', 'h', 'o', 'n'});
      AbsentCharNotFound("python", "Python", {'P', 'y', 't', 'h', 'o', 'n'}, 0);
      ContainsIsOccurrence("Python", "python");
    }
    assert Word("ython") && "Python" == ['P'] + "ython" && "python" == ['p'] + "ython";
    CleanTextLowercasesWord('P', "ython");
    assert Contains("python", "python");
  }

  /** A capitalised word comes out of clean_text with its first letter
      lowercased. */
  lemma CleanTextLowercasesWord(c: char, tail: string)
    requires 'A' <= c <= 'Z' && Word(tail)
    ensures CleanText([c] + tail) == [ToLower(c)] + tail
  {
    var w := [c] + tail;
    assert NoWhitespace(w) by {
      forall i | 0 < i < |w|
        ensures !IsWhitespace(w[i])
      {
        assert w[i] == tail[i - 1] && tail[i - 1] in tail;
      }
    }
    assert SingleSpaced(w) && Trimmed(w);
    CleanTextOfSingleSpaced(w);
    assert Lowercase(w) == [ToLower(c)] + tail by {
      WordIsClean(tail);
      LowercaseConcat([c], tail);
      LowercaseLowercase(tail);
      assert Lowercase([c]) == [ToLower(c)];
    }
  }

  /** No keyword is empty, so the empty text has no skills. */
  lemma EmptyTextHasNoSkills()
    ensures SkillsIn("", SkillKeywords) == {}
  {
    forall skill | skill in SkillKeywords
      ensures !Contains("", skill)
    {
      assert skill != [];
    }
  }
}
