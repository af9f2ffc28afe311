/** Text normalisation (clean_text in app.py): every maximal run of whitespace
    becomes a single space, both ends are trimmed and the text is lowercased.

    The normalised text is characterised independently as Python's
    " ".join(t.split()).lower(): the whitespace-separated words of the input,
    lowercased, joined by single spaces. */
module Normalize {

  // ---------------------------------------------------------------------------
  // Characters
  // ---------------------------------------------------------------------------

  /** Python's whitespace class: the characters for which str.isspace() holds,
      which is what `\s` matches in a str pattern and what str.strip() removes. */
  predicate IsWhitespace(c: char) {
    ('\t' <= c <= '\r') || ('\U{1C}' <= c <= '\U{1F}') || c == ' '
    || c == '\U{85}' || c == '\U{A0}' || c == '\U{1680}'
    || ('\U{2000}' <= c <= '\U{200A}') || c == '\U{2028}' || c == '\U{2029}'
    || c == '\U{202F}' || c == '\U{205F}' || c == '\U{3000}'
  }

  /** Lowercasing of one character, restricted to ASCII letters: the result
      is never an uppercase letter, only uppercase letters change, and a
      letter keeps its place in the alphabet. */
  function ToLower(c: char): (r: char)
    ensures !('A' <= r <= 'Z')
    ensures !('A' <= c <= 'Z') ==> r == c
    ensures 'A' <= c <= 'Z' ==> 'a' <= r <= 'z' && r as int - 'a' as int == c as int - 'A' as int
  {
    if 'A' <= c <= 'Z' then (c as int + ('a' as int - 'A' as int)) as char else c
  }

  /** str.lower(), one character at a time: same length, no uppercase letter
      left. */
  function Lowercase(s: string): (r: string)
    ensures |r| == |s|
    ensures IsLowercase(r)
  {
    seq(|s|, i requires 0 <= i < |s| => ToLower(s[i]))
  }

  predicate AllWhitespace(s: string) {
    forall i :: 0 <= i < |s| ==> IsWhitespace(s[i])
  }

  predicate NoWhitespace(s: string) {
    forall i :: 0 <= i < |s| ==> !IsWhitespace(s[i])
  }

  // ---------------------------------------------------------------------------
  // The shape of a normalised text
  // ---------------------------------------------------------------------------

  /** Every whitespace character is a plain space and no two whitespace
      characters are adjacent. */
  predicate SingleSpaced(s: string) {
    && (forall i :: 0 <= i < |s| && IsWhitespace(s[i]) ==> s[i] == ' ')
    && (forall i :: 0 <= i < |s| - 1 ==> !(IsWhitespace(s[i]) && IsWhitespace(s[i + 1])))
  }

  /** No whitespace at either end. */
  predicate Trimmed(s: string) {
    s == [] || (!IsWhitespace(s[0]) && !IsWhitespace(s[|s| - 1]))
  }

  /** No character changes under lowercasing. */
  predicate IsLowercase(s: string) {
    forall i :: 0 <= i < |s| ==> ToLower(s[i]) == s[i]
  }

  // ---------------------------------------------------------------------------
  // The three steps of clean_text
  // ---------------------------------------------------------------------------

  /** str.lstrip(): drops the leading whitespace and nothing else (the result
      is a suffix of s, by TrimStartIsSuffix). */
  function TrimStart(s: string): (r: string)
    ensures |r| <= |s|
    ensures r == [] || !IsWhitespace(r[0])
  {
    if s != [] && IsWhitespace(s[0]) then TrimStart(s[1..]) else s
  }

  /** lstrip keeps a suffix of its input. */
  lemma {:induction false} TrimStartIsSuffix(s: string)
    ensures TrimStart(s) == s[|s| - |TrimStart(s)|..]
  {
    if s != [] && IsWhitespace(s[0]) {
      TrimStartIsSuffix(s[1..]);
    }
  }

  /** What lstrip removes is whitespace. */
  lemma {:induction false} TrimStartRemovesWhitespace(s: string)
    ensures AllWhitespace(s[..|s| - |TrimStart(s)|])
  {
    if s != [] && IsWhitespace(s[0]) {
      TrimStartRemovesWhitespace(s[1..]);
      assert s[..|s| - |TrimStart(s)|] == [s[0]] + s[1..][..|s| - 1 - |TrimStart(s)|];
    }
  }

  /** str.rstrip(): drops the trailing whitespace and nothing else (by
      TrimEndRemovesWhitespace). */
  function TrimEnd(s: string): (r: string)
    ensures |r| <= |s| && r == s[..|r|]
    ensures r == [] || !IsWhitespace(r[|r| - 1])
  {
    if s != [] && IsWhitespace(s[|s| - 1]) then TrimEnd(s[..|s| - 1]) else s
  }

  /** rstrip removes a whitespace suffix. */
  lemma {:induction false} TrimEndRemovesWhitespace(s: string)
    ensures AllWhitespace(s[|TrimEnd(s)|..])
  {
    if s != [] && IsWhitespace(s[|s| - 1]) {
      var s' := s[..|s| - 1];
      TrimEndRemovesWhitespace(s');
      assert s[|TrimEnd(s)|..] == s'[|TrimEnd(s')|..] + [s[|s| - 1]];
    }
  }

  /** str.strip(). */
  function Strip(s: string): (r: string)
    ensures |r| <= |s|
    ensures Trimmed(r)
  {
    TrimEnd(TrimStart(s))
  }

  /** re.sub(r'\s+', ' ', s): each maximal whitespace run becomes one space,
      so the text never grows and a non-empty text stays non-empty. */
  function CollapseWhitespace(s: string): (r: string)
    decreases |s|
    ensures |r| <= |s|
    ensures s != [] ==> r != []
  {
    if s == [] then []
    else if IsWhitespace(s[0]) then " " + CollapseWhitespace(TrimStart(s[1..]))
    else [s[0]] + CollapseWhitespace(s[1..])
  }

  /** clean_text: collapse, strip, lowercase, in that order. It never
      lengthens the text. */
  function CleanText(text: string): (r: string)
    ensures |r| <= |text|
  {
    Lowercase(Strip(CollapseWhitespace(text)))
  }

  // ---------------------------------------------------------------------------
  // Reference definition: " ".join(text.split())
  // ---------------------------------------------------------------------------

  /** The longest prefix of s without whitespace. */
  function LeadingWord(s: string): (w: string)
    ensures |w| <= |s| && w == s[..|w|]
    ensures NoWhitespace(w)
    ensures |w| == |s| || IsWhitespace(s[|w|])
  {
    if s == [] || IsWhitespace(s[0]) then [] else [s[0]] + LeadingWord(s[1..])
  }

  /** str.split() without a separator: the maximal runs of non-whitespace
      characters, in order. */
  function Words(s: string): (ws: seq<string>)
    decreases |s|
  {
    var u := TrimStart(s);
    if u == [] then []
    else
      var w := LeadingWord(u);
      var rest := Words(u[|w|..]);
      [w] + rest
  }

  /** Every word is non-empty and holds no whitespace. */
  lemma {:induction false} WordsAreWords(s: string)
    decreases |s|
    ensures forall i :: 0 <= i < |Words(s)| ==> Words(s)[i] != [] && NoWhitespace(Words(s)[i])
  {
    var u := TrimStart(s);
    if u != [] {
      var w := LeadingWord(u);
      var rest := Words(u[|w|..]);
      WordsAreWords(u[|w|..]);
      var ws := Words(s);
      assert ws == [w] + rest;
      forall i | 0 <= i < |ws|
        ensures ws[i] != [] && NoWhitespace(ws[i])
      {
        if i == 0 {
          assert ws[0] == w;
          assert w != [];
        } else {
          assert ws[i] == rest[i - 1];
        }
      }
    }
  }

  /** " ".join(ws) */
  function JoinWords(ws: seq<string>): string {
    if ws == [] then ""
    else if |ws| == 1 then ws[0]
    else ws[0] + " " + JoinWords(ws[1..])
  }

  // ---------------------------------------------------------------------------
  // Lemmas
  // ---------------------------------------------------------------------------

  /** Concatenation is associative; proved apart from any other context, so
      that the larger proofs need not search for the regrouping. */
  lemma ConcatAssoc(a: string, b: string, c: string)
    ensures (a + b) + c == a + (b + c)
  {
  }

  lemma {:induction false} TrimStartSkips(p: string, x: string)
    requires AllWhitespace(p)
    ensures TrimStart(p + x) == TrimStart(x)
  {
    if p == [] {
      assert p + x == x;
    } else {
      assert (p + x)[0] == p[0] && (p + x)[1..] == p[1..] + x;
      TrimStartSkips(p[1..], x);
    }
  }

  lemma {:induction false} TrimEndSkips(x: string, q: string)
    requires AllWhitespace(q)
    ensures TrimEnd(x + q) == TrimEnd(x)
  {
    if q == [] {
      assert x + q == x;
    } else {
      assert (x + q)[|x + q| - 1] == q[|q| - 1] && (x + q)[..|x + q| - 1] == x + q[..|q| - 1];
      TrimEndSkips(x, q[..|q| - 1]);
    }
  }

  /** Stripping whitespace padding off a trimmed text gives that text back. */
  lemma StripPadded(p: string, j: string, q: string)
    requires AllWhitespace(p) && AllWhitespace(q) && Trimmed(j)
    ensures Strip(p + (j + q)) == j
  {
    TrimStartSkips(p, j + q);
    TrimEndSkips(j, q);
    if j == [] {
      assert j + q == q;
      assert TrimStart(q) == [] by {
        assert q + [] == q;
        TrimStartSkips(q, []);
      }
    }
  }

  /** A leading run of non-whitespace is copied through by the collapse. */
  lemma {:induction false} CollapseWord(w: string, rest: string)
    requires NoWhitespace(w)
    ensures CollapseWhitespace(w + rest) == w + CollapseWhitespace(rest)
  {
    if w == [] {
      assert w + rest == rest;
    } else {
      assert (w + rest)[0] == w[0] && (w + rest)[1..] == w[1..] + rest;
      CollapseWord(w[1..], rest);
    }
  }

  /** lstrip of a concatenation: when the first part holds a non-whitespace
      character, or the second part does not start with whitespace, the
      second part is kept whole. */
  lemma {:induction false} TrimStartConcat(a: string, x: string)
    requires TrimStart(a) != [] || x == [] || !IsWhitespace(x[0])
    decreases |a|
    ensures TrimStart(a + x) == TrimStart(a) + x
  {
    if a == [] {
      assert a + x == x;
    } else if IsWhitespace(a[0]) {
      assert (a + x)[0] == a[0] && (a + x)[1..] == a[1..] + x;
      TrimStartConcat(a[1..], x);
    } else {
      assert (a + x)[0] == a[0];
    }
  }

  /** The collapse works on the two sides of a boundary separately, unless a
      whitespace run crosses the boundary. */
  lemma {:induction false} CollapseConcat(a: string, x: string)
    requires a == [] || x == [] || !IsWhitespace(a[|a| - 1]) || !IsWhitespace(x[0])
    decreases |a|
    ensures CollapseWhitespace(a + x) == CollapseWhitespace(a) + CollapseWhitespace(x)
  {
    if a == [] {
      assert a + x == x;
    } else {
      assert (a + x)[0] == a[0] && (a + x)[1..] == a[1..] + x;
      if IsWhitespace(a[0]) {
        var t := a[1..];
        var t' := TrimStart(t);
        TrimStartIsSuffix(t);
        if !(x == [] || !IsWhitespace(x[0])) {
          assert t != [] && t[|t| - 1] == a[|a| - 1];
          TrimStartRemovesWhitespace(t);
          assert t' != [];
        }
        assert t' == [] || t'[|t'| - 1] == a[|a| - 1];
        TrimStartConcat(t, x);
        CollapseConcat(t', x);
        ConcatAssoc(" ", CollapseWhitespace(t'), CollapseWhitespace(x));
      } else {
        CollapseConcat(a[1..], x);
        ConcatAssoc([a[0]], CollapseWhitespace(a[1..]), CollapseWhitespace(x));
      }
    }
  }

  /** A text starting with a word splits into that word and the rest's words. */
  lemma WordsOfWord(u: string)
    requires u != [] && !IsWhitespace(u[0])
    ensures Words(u) == [LeadingWord(u)] + Words(u[|LeadingWord(u)|..])
  {
  }

  /** Leading whitespace does not change the words. */
  lemma WordsOfSpace(s: string)
    requires s != [] && IsWhitespace(s[0])
    ensures Words(s) == Words(TrimStart(s[1..]))
  {
    var v := TrimStart(s[1..]);
    assert TrimStart(s) == v;
    assert TrimStart(v) == v;
  }

  lemma JoinWordsCons(w: string, ws: seq<string>)
    requires ws != []
    ensures JoinWords([w] + ws) == w + " " + JoinWords(ws)
  {
    assert ([w] + ws)[1..] == ws;
  }

  /** The collapse copies a text's leading word and continues after it. */
  lemma CollapseAfterWord(u: string)
    ensures CollapseWhitespace(u)
         == LeadingWord(u) + CollapseWhitespace(u[|LeadingWord(u)|..])
  {
    var w := LeadingWord(u);
    assert u == w + u[|w|..];
    CollapseWord(w, u[|w|..]);
  }

  /** " " when s ends in whitespace, "" otherwise: the one space the collapse
      leaves at the end of such a text. */
  function TrailingSpace(s: string): string {
    if s != [] && IsWhitespace(s[|s| - 1]) then " " else ""
  }

  lemma TrailingSpaceOfSuffix(u: string, k: nat)
    requires k < |u|
    ensures TrailingSpace(u[k..]) == TrailingSpace(u)
  {
    assert u[k..][|u| - k - 1] == u[|u| - 1];
  }

  /** A text whose tail from k on is whitespace ends in whitespace. */
  lemma EndsInBlankRun(u: string, k: nat)
    requires k < |u| && IsWhitespace(u[k]) && TrimStart(u[k..][1..]) == []
    ensures TrailingSpace(u) == " "
  {
    var rest := u[k..];
    TrailingSpaceOfSuffix(u, k);
    TrimStartRemovesWhitespace(rest[1..]);
    assert rest == [rest[0]] + rest[1..][..|rest| - 1];
  }

  /** The collapse of a text that is a single word. */
  lemma CollapseOneWord(u: string)
    requires u != [] && !IsWhitespace(u[0])
    requires |LeadingWord(u)| == |u|
    ensures CollapseWhitespace(u) == JoinWords(Words(u)) + TrailingSpace(u)
  {
    var w := LeadingWord(u);
    WordsOfWord(u);
    CollapseAfterWord(u);
    assert u[|u| - 1] == w[|w| - 1];
  }

  /** The collapse of a word followed by whitespace only. */
  lemma CollapseWordThenSpace(u: string)
    requires u != [] && !IsWhitespace(u[0])
    requires |LeadingWord(u)| < |u|
    requires TrimStart(u[|LeadingWord(u)|..][1..]) == []
    ensures CollapseWhitespace(u) == JoinWords(Words(u)) + TrailingSpace(u)
  {
    var w := LeadingWord(u);
    var rest := u[|w|..];
    assert CollapseWhitespace(u) == w + " " by {
      CollapseAfterWord(u);
      assert CollapseWhitespace(rest) == " " + [];
    }
    assert JoinWords([w]) == w;
    assert Words(u) == [w] by {
      WordsOfWord(u);
      WordsOfSpace(rest);
    }
    EndsInBlankRun(u, |w|);
  }

  /** The collapse of a word followed by whitespace and a further text v, given
      the collapse of v. */
  lemma CollapseWordThenMore(u: string, v: string)
    requires u != [] && !IsWhitespace(u[0])
    requires |LeadingWord(u)| < |u|
    requires v == TrimStart(u[|LeadingWord(u)|..][1..]) && v != []
    requires CollapseWhitespace(v) == JoinWords(Words(v)) + TrailingSpace(v)
    ensures CollapseWhitespace(u) == JoinWords(Words(u)) + TrailingSpace(u)
  {
    var w := LeadingWord(u);
    var rest := u[|w|..];
    var j := JoinWords(Words(v));
    var t := TrailingSpace(v);
    CollapseAfterWord(u);
    assert CollapseWhitespace(rest) == " " + (j + t);
    assert JoinWords(Words(u)) == w + " " + j by {
      WordsOfWord(u);
      WordsOfSpace(rest);
      JoinWordsCons(w, Words(v));
    }
    assert TrailingSpace(u) == t by {
      TrimStartIsSuffix(rest[1..]);
      assert u[|u| - 1] == v[|v| - 1];
    }
    assert w + (" " + (j + t)) == (w + " " + j) + t by {
      ConcatAssoc(w + " ", j, t);
      ConcatAssoc(w, " ", j + t);
    }
  }

  /** On a text with no leading whitespace, the collapse is the joined words
      followed by one space when the text ends in whitespace. */
  lemma {:induction false} CollapseIsJoin(u: string)
    requires u == [] || !IsWhitespace(u[0])
    decreases |u|
    ensures CollapseWhitespace(u) == JoinWords(Words(u)) + TrailingSpace(u)
  {
    if u != [] {
      var w := LeadingWord(u);
      if |w| == |u| {
        CollapseOneWord(u);
      } else {
        var v := TrimStart(u[|w|..][1..]);
        if v == [] {
          CollapseWordThenSpace(u);
        } else {
          CollapseIsJoin(v);
          CollapseWordThenMore(u, v);
        }
      }
    }
  }

  lemma {:induction false} JoinWordsShape(ws: seq<string>)
    requires forall i :: 0 <= i < |ws| ==> ws[i] != [] && NoWhitespace(ws[i])
    ensures SingleSpaced(JoinWords(ws)) && Trimmed(JoinWords(ws))
    ensures ws != [] ==> JoinWords(ws) != []
  {
    if |ws| > 1 {
      JoinWordsShape(ws[1..]);
      var a, b := ws[0], JoinWords(ws[1..]);
      var s := a + " " + b;
      assert s[|s| - 1] == b[|b| - 1];
      forall i | 0 <= i < |s| && IsWhitespace(s[i])
        ensures s[i] == ' '
      {
        if i > |a| { assert s[i] == b[i - |a| - 1]; }
      }
      forall i | 0 <= i < |s| - 1
        ensures !(IsWhitespace(s[i]) && IsWhitespace(s[i + 1]))
      {
        if i < |a| - 1 {
        } else if i == |a| - 1 {
          assert s[i] == a[i];
        } else if i == |a| {
          assert s[i + 1] == b[0];
        } else {
          assert s[i] == b[i - |a| - 1] && s[i + 1] == b[i - |a|];
        }
      }
    }
  }

  /** Collapsing then stripping yields the words joined by single spaces. */
  lemma StripCollapseIsJoin(text: string)
    ensures Strip(CollapseWhitespace(text)) == JoinWords(Words(text))
  {
    var u := TrimStart(text);
    assert Words(text) == Words(u) by {
      assert TrimStart(u) == u;
    }
    var j := JoinWords(Words(u));
    var tail := TrailingSpace(u);
    assert CollapseWhitespace(u) == j + tail by {
      CollapseIsJoin(u);
    }
    assert Trimmed(j) by {
      WordsAreWords(u);
      JoinWordsShape(Words(u));
    }
    var lead := if text != [] && IsWhitespace(text[0]) then " " else "";
    assert CollapseWhitespace(text) == lead + (j + tail) by {
      if text != [] && IsWhitespace(text[0]) {
        assert TrimStart(text[1..]) == u;
      } else {
        assert u == text;
        assert "" + (j + tail) == j + tail;
      }
    }
    StripPadded(lead, j, tail);
  }

  /** clean_text is " ".join(text.split()).lower(). */
  lemma CleanTextIsJoinedWords(text: string)
    ensures CleanText(text) == Lowercase(JoinWords(Words(text)))
  {
    StripCollapseIsJoin(text);
  }

  // ---------------------------------------------------------------------------
  // The properties clean_text promises
  // ---------------------------------------------------------------------------

  /** Lowercasing never turns whitespace into anything else, nor anything else
      into whitespace, and keeps the space. */
  lemma ToLowerKeepsWhitespace(c: char)
    ensures IsWhitespace(ToLower(c)) == IsWhitespace(c)
    ensures IsWhitespace(c) ==> ToLower(c) == c
  {
  }

  lemma LowercaseKeepsShape(s: string)
    requires SingleSpaced(s) && Trimmed(s)
    ensures SingleSpaced(Lowercase(s)) && Trimmed(Lowercase(s)) && IsLowercase(Lowercase(s))
  {
    var r := Lowercase(s);
    forall i | 0 <= i < |s|
      ensures IsWhitespace(r[i]) == IsWhitespace(s[i]) && (IsWhitespace(s[i]) ==> r[i] == s[i])
      ensures ToLower(r[i]) == r[i]
    {
      ToLowerKeepsWhitespace(s[i]);
    }
  }

  /** The output of clean_text never holds two adjacent whitespace characters,
      holds no whitespace other than the plain space, has no whitespace at
      either end, and has no uppercase letter. */
  lemma CleanTextShape(text: string)
    ensures SingleSpaced(CleanText(text))
    ensures Trimmed(CleanText(text))
    ensures IsLowercase(CleanText(text))
  {
    CleanTextIsJoinedWords(text);
    WordsAreWords(text);
    JoinWordsShape(Words(text));
    LowercaseKeepsShape(JoinWords(Words(text)));
  }

  /** The collapse leaves a single-spaced text as it is. */
  lemma {:induction false} CollapseSingleSpaced(s: string)
    requires SingleSpaced(s)
    ensures CollapseWhitespace(s) == s
  {
    if s != [] {
      var t := s[1..];
      assert SingleSpaced(t) by {
        assert forall i :: 0 <= i < |t| ==> t[i] == s[i + 1];
      }
      CollapseSingleSpaced(t);
      if IsWhitespace(s[0]) {
        assert t == [] || !IsWhitespace(t[0]);
        assert TrimStart(t) == t;
        assert s == " " + t;
      } else {
        assert s == [s[0]] + t;
      }
    }
  }

  /** Stripping leaves a trimmed text as it is. */
  lemma StripTrimmed(s: string)
    requires Trimmed(s)
    ensures Strip(s) == s
  {
    assert TrimStart(s) == s;
    assert TrimEnd(s) == s;
  }

  lemma LowercaseLowercase(s: string)
    requires IsLowercase(s)
    ensures Lowercase(s) == s
  {
  }

  /** On a single-spaced, trimmed text clean_text only lowercases. */
  lemma CleanTextOfSingleSpaced(s: string)
    requires SingleSpaced(s) && Trimmed(s)
    ensures CleanText(s) == Lowercase(s)
  {
    CollapseSingleSpaced(s);
    StripTrimmed(s);
  }

  /** clean_text is idempotent. */
  lemma CleanTextIdempotent(text: string)
    ensures CleanText(CleanText(text)) == CleanText(text)
  {
    var r := CleanText(text);
    CleanTextShape(text);
    CleanTextOfSingleSpaced(r);
    LowercaseLowercase(r);
  }

  // ---------------------------------------------------------------------------
  // Plain ASCII text
  // ---------------------------------------------------------------------------

  /** Every character is a printable ASCII character or the space. */
  predicate PrintableAscii(s: string) {
    forall i :: 0 <= i < |s| ==> ' ' <= s[i] <= '~'
  }

  /** Printable ASCII text with no two spaces in a row is single-spaced: its
      only whitespace character is the space. */
  lemma PrintableSingleSpaced(s: string)
    requires PrintableAscii(s)
    requires forall i :: 0 <= i < |s| - 1 ==> !(s[i] == ' ' && s[i + 1] == ' ')
    ensures SingleSpaced(s)
  {
  }

  /** Lowercasing works character by character, so it distributes over
      concatenation. */
  lemma LowercaseConcat(a: string, b: string)
    ensures Lowercase(a + b) == Lowercase(a) + Lowercase(b)
  {
  }
}
