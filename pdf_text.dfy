/** The page loop of extract_text_from_pdf (app.py): the text of a document is
    the concatenation, in page order, of whatever each page yields; a page
    that yields nothing (None or the empty string) contributes nothing.

    The PDF reader itself is not modelled: a document is the sequence of the
    values its pages' extract_text() calls return. */
module PdfText {
  import opened Normalize
  import opened Skills

  datatype Option<T> = None | Some(value: T)

  /** What one page adds to the text: its extracted string, or nothing when
      extraction gave None; it is empty exactly for a blank page. */
  function PageText(page: Option<string>): (t: string)
    ensures t == "" <==> Blank(page)
  {
    if page.Some? then page.value else ""
  }

  /** A page adds nothing exactly when its extraction is falsy in Python:
      None or the empty string. */
  predicate Blank(page: Option<string>) {
    page.None? || page.value == ""
  }

  /** The text of the whole document: the pages' texts, in order. */
  function ConcatPages(pages: seq<Option<string>>): string
    decreases |pages|
  {
    if pages == [] then "" else ConcatPages(pages[..|pages| - 1]) + PageText(pages[|pages| - 1])
  }

  /** extract_text_from_pdf: starts from the empty string and appends the
      text of every page whose extraction is truthy. */
  method ExtractText(pages: seq<Option<string>>) returns (text: string)
    ensures text == ConcatPages(pages)
  {
    text := "";
    var i := 0;
    while i < |pages|
      invariant 0 <= i <= |pages|
      invariant text == ConcatPages(pages[..i])
    {
      var page := pages[i];
      if page.Some? && page.value != "" {
        text := text + page.value;
      }
      assert pages[..i + 1][..i] == pages[..i];
      i := i + 1;
    }
    assert pages[..i] == pages;
  }

  // ---------------------------------------------------------------------------
  // Lemmas
  // ---------------------------------------------------------------------------

  /** Splitting the document anywhere splits its text at the same place. */
  lemma {:induction false} ConcatPagesAppend(p: seq<Option<string>>, q: seq<Option<string>>)
    decreases |q|
    ensures ConcatPages(p + q) == ConcatPages(p) + ConcatPages(q)
  {
    if q == [] {
      assert p + q == p;
    } else {
      var q' := q[..|q| - 1];
      var last := PageText(q[|q| - 1]);
      assert (p + q)[..|p + q| - 1] == p + q';
      assert ConcatPages(p + q) == ConcatPages(p + q') + last;
      ConcatPagesAppend(p, q');
      ConcatAssoc(ConcatPages(p), ConcatPages(q'), last);
    }
  }

  /** The document yields no text exactly when every page is blank. */
  lemma {:induction false} NoTextIffBlankPages(pages: seq<Option<string>>)
    decreases |pages|
    ensures ConcatPages(pages) == "" <==> forall i :: 0 <= i < |pages| ==> Blank(pages[i])
  {
    if pages != [] {
      var init := pages[..|pages| - 1];
      NoTextIffBlankPages(init);
      if ConcatPages(pages) == "" {
        forall i | 0 <= i < |pages|
          ensures Blank(pages[i])
        {
          if i < |init| {
            assert pages[i] == init[i];
          }
        }
      }
      if forall i :: 0 <= i < |pages| ==> Blank(pages[i]) {
        assert forall i :: 0 <= i < |init| ==> Blank(init[i]) by {
          forall i | 0 <= i < |init|
            ensures Blank(init[i])
          {
            assert init[i] == pages[i];
          }
        }
      }
    }
  }

  /** Each page's text appears, at the offset of the pages before it, in the
      text of the document. */
  lemma PageTextOccurs(pages: seq<Option<string>>, i: int)
    requires 0 <= i < |pages|
    ensures OccursAt(PageText(pages[i]), ConcatPages(pages), |ConcatPages(pages[..i])|)
  {
    var upto := pages[..i + 1];
    assert upto[..i] == pages[..i];
    assert pages == upto + pages[i + 1..];
    ConcatPagesAppend(upto, pages[i + 1..]);
    OccursBetween(ConcatPages(pages[..i]), PageText(pages[i]), ConcatPages(pages[i + 1..]));
  }

  /** A keyword mentioned on any one page is among the skills of the résumé:
      it occurs in the joined text of the pages, and clean_text keeps it. */
  lemma PageSkillsFound(pages: seq<Option<string>>, i: int)
    requires 0 <= i < |pages|
    ensures SkillsIn(PageText(pages[i]), SkillKeywords) <= SkillsIn(CleanText(ConcatPages(pages)), SkillKeywords)
  {
    PageTextOccurs(pages, i);
    SkillsInMonotone(PageText(pages[i]), ConcatPages(pages), SkillKeywords);
    CleanTextKeepsSkills(ConcatPages(pages));
  }
}
