/** TextPreprocessor (backend/app/scoring_engine.py:47-93): normalisation, word and n-gram
    extraction, and the keyword snippet shown as evidence. */
module TextPreprocessor {
  import opened Strings

  /** `re.sub(r'\s+', ' ', s)`: every maximal whitespace run becomes one space.
      `inRun` says the character before `s` was whitespace. */
  function CollapseFrom(s: string, inRun: bool): string
  {
    if s == [] then []
    else if IsSpace(s[0]) then (if inRun then [] else " ") + CollapseFrom(s[1..], true)
    else [s[0]] + CollapseFrom(s[1..], false)
  }

  function Collapse(s: string): string { CollapseFrom(s, false) }

  /** The shape `preprocess` promises: no upper-case letter, no whitespace but single
      interior spaces, nothing to strip at either end. */
  predicate Normalized(s: string)
  {
    && (forall i :: 0 <= i < |s| ==> !IsUpper(s[i]) && (IsSpace(s[i]) ==> s[i] == ' '))
    && SingleSpaced(s)
    && (s != [] ==> s[0] != ' ' && s[|s| - 1] != ' ')
  }

  /** No two spaces side by side. */
  predicate SingleSpaced(r: string)
  {
    forall i :: 0 <= i < |r| - 1 ==> !(r[i] == ' ' && r[i + 1] == ' ')
  }

  /** Collapsing leaves no whitespace but the space, and brings in no capital. */
  lemma {:induction false} CollapseChars(s: string, inRun: bool)
    requires NoUpper(s)
    ensures var r := CollapseFrom(s, inRun);
      NoUpper(r) && forall i :: 0 <= i < |r| ==> IsSpace(r[i]) ==> r[i] == ' '
  {
    if s != [] {
      var b := IsSpace(s[0]);
      assert NoUpper(s[1..]) by {
        assert forall i :: 0 <= i < |s[1..]| ==> s[1..][i] == s[i + 1];
      }
      CollapseChars(s[1..], b);
      var head := if b && inRun then [] else if b then " " else [s[0]];
      var r := CollapseFrom(s, inRun);
      assert r == head + CollapseFrom(s[1..], b);
      forall i | 0 <= i < |r| ensures !IsUpper(r[i]) && (IsSpace(r[i]) ==> r[i] == ' ') {
        if i < |head| {
          assert r[i] == head[i];
        } else {
          assert r[i] == CollapseFrom(s[1..], b)[i - |head|];
        }
      }
    }
  }

  /** Collapsing leaves no two spaces side by side, and starts with no space after whitespace. */
  lemma {:induction false} CollapseSpacing(s: string, inRun: bool)
    ensures var r := CollapseFrom(s, inRun);
      SingleSpaced(r) && (inRun && r != [] ==> r[0] != ' ')
  {
    if s != [] {
      var b := IsSpace(s[0]);
      CollapseSpacing(s[1..], b);
      var rest := CollapseFrom(s[1..], b);
      var r := CollapseFrom(s, inRun);
      if !(b && inRun) {
        var head := if b then ' ' else s[0];
        assert r == [head] + rest;
        forall i | 0 <= i < |r| - 1 ensures !(r[i] == ' ' && r[i + 1] == ' ') {
          if i > 0 {
            assert r[i] == rest[i - 1] && r[i + 1] == rest[i];
          } else if b {
            assert rest[0] != ' ';
          } else {
            assert r[0] == s[0];
          }
        }
      }
    }
  }

  /** A stretch of a single-spaced lower-case text that does not start or end in a space is
      normalized. */
  lemma SliceNormalized(t: string, r: string, a: nat)
    requires forall i :: 0 <= i < |t| ==> !IsUpper(t[i]) && (IsSpace(t[i]) ==> t[i] == ' ')
    requires SingleSpaced(t)
    requires a + |r| <= |t| && forall i :: 0 <= i < |r| ==> r[i] == t[a + i]
    requires r != [] ==> !IsSpace(r[0]) && !IsSpace(r[|r| - 1])
    ensures Normalized(r)
  {
    forall i | 0 <= i < |r| - 1 ensures !(r[i] == ' ' && r[i + 1] == ' ') {
      assert r[i] == t[a + i] && r[i + 1] == t[a + i + 1];
    }
  }

  lemma StripShape(t: string)
    requires forall i :: 0 <= i < |t| ==> !IsUpper(t[i]) && (IsSpace(t[i]) ==> t[i] == ' ')
    requires SingleSpaced(t)
    ensures Normalized(Strip(t))
  {
    SliceNormalized(t, Strip(t), SpacesEnd(t, 0));
  }

  /** `preprocess` (lines 51-55): lower-case, collapse whitespace, strip. */
  function Preprocess(text: string): (r: string)
    ensures Normalized(r)
    ensures |r| <= |text|
  {
    var lowered := Lower(text);
    CollapseChars(lowered, false);
    CollapseSpacing(lowered, false);
    CollapseLength(lowered, false);
    LowerNoUpper(text);
    StripShape(Collapse(lowered));
    Strip(Collapse(lowered))
  }

  lemma {:induction false} CollapseLength(s: string, inRun: bool)
    ensures |CollapseFrom(s, inRun)| <= |s|
  {
    if s != [] {
      CollapseLength(s[1..], IsSpace(s[0]));
    }
  }

  lemma {:induction false} CollapseFixpoint(s: string, inRun: bool)
    requires forall i :: 0 <= i < |s| ==> (IsSpace(s[i]) ==> s[i] == ' ')
    requires SingleSpaced(s)
    requires inRun && s != [] ==> s[0] != ' '
    ensures CollapseFrom(s, inRun) == s
  {
    if s != [] {
      CollapseFixpoint(s[1..], IsSpace(s[0]));
      assert [s[0]] + s[1..] == s;
    }
  }

  /** A normalized string is left unchanged by `preprocess`. */
  lemma NormalizedFixpoint(s: string)
    requires Normalized(s)
    ensures Preprocess(s) == s
  {
    LowerFixpoint(s);
    CollapseFixpoint(s, false);
    StripFixpoint(s);
  }

  /** `preprocess` is idempotent. */
  lemma PreprocessIdempotent(text: string)
    ensures Preprocess(Preprocess(text)) == Preprocess(text)
  {
    NormalizedFixpoint(Preprocess(text));
  }

  /** `preprocess` removes every line break, so `preprocess(t).split('\n')` is one line. */
  lemma PreprocessOneLine(text: string)
    ensures Split(Preprocess(text), '\n') == [Preprocess(text)]
  {
    var p := Preprocess(text);
    assert forall i :: 0 <= i < |p| ==> p[i] != '\n' by {
      forall i | 0 <= i < |p| ensures p[i] != '\n' {
        assert IsSpace('\n');
      }
    }
    SplitWithoutSeparator(p, '\n');
  }

  /** Collapsing whitespace keeps every whitespace-separated word. */
  lemma {:induction false} RunsCollapse(s: string, inRun: bool)
    ensures Runs(CollapseFrom(s, inRun), NotSpace) == Runs(s, NotSpace)
  {
    if s != [] {
      var c, s' := s[0], s[1..];
      assert s == [c] + s';
      RunsCons(c, s', NotSpace);
      if IsSpace(c) {
        RunsCollapse(s', true);
        if !inRun {
          RunsCons(' ', CollapseFrom(s', true), NotSpace);
        } else {
          assert CollapseFrom(s, inRun) == CollapseFrom(s', true);
        }
      } else {
        RunsCollapse(s', false);
        CollapseHead(s');
        RunsCons(c, CollapseFrom(s', false), NotSpace);
      }
    }
  }

  /** Collapsing keeps whether the text opens with a non-whitespace character. */
  lemma CollapseHead(s: string)
    ensures var r := CollapseFrom(s, false);
      (r != [] && NotSpace(r[0])) <==> (s != [] && NotSpace(s[0]))
  {
  }

  /** A normalized text is its words joined by single spaces. */
  lemma {:induction false} NormalizedJoin(r: string)
    requires Normalized(r)
    ensures Join(SplitWhitespace(r), " ") == r
    decreases |r|
  {
    if r != [] {
      var n := RunLen(r, NotSpace);
      var w := r[..n];
      assert SplitWhitespace(r) == [w] + Runs(r[n..], NotSpace) by {
        assert NotSpace(r[0]);
      }
      if n == |r| {
        assert r[n..] == [] && w == r;
        assert Runs(r[n..], NotSpace) == [];
        assert [w] + [] == [w];
        assert Join([w], " ") == w;
      } else {
        var t := r[n + 1..];
        NormalizedAfterWord(r, n);
        var ws := Runs(t, NotSpace);
        assert Runs(r[n..], NotSpace) == ws by {
          assert r[n..] == [' '] + t;
          RunsCons(' ', t, NotSpace);
        }
        assert Join(ws, " ") == t by {
          NormalizedJoin(t);
        }
        assert Join([w] + ws, " ") == r by {
          JoinCons(w, ws, " ");
          assert w + " " + t == r;
        }
      }
    }
  }

  /** In a normalized text, the first word that ends before the end is followed by one space
      and a normalized rest that opens with a word. */
  lemma NormalizedAfterWord(r: string, n: nat)
    requires Normalized(r) && n < |r|
    requires forall i :: 0 <= i < n ==> NotSpace(r[i])
    requires !NotSpace(r[n]) && n > 0
    ensures n + 1 < |r| && r[n] == ' ' && Normalized(r[n + 1..])
    ensures Runs(r[n + 1..], NotSpace) != []
  {
    var t := r[n + 1..];
    assert r[n + 1] != ' ';
    SliceNormalized(r, t, n + 1);
    assert t[0] == r[n + 1];
  }

  lemma JoinCons(w: string, ws: seq<string>, sep: string)
    requires ws != []
    ensures Join([w] + ws, sep) == w + sep + Join(ws, sep)
  {
    assert ([w] + ws)[1..] == ws;
  }

  /** `preprocess(t)` is the words of `t`, lower-cased, joined by single spaces; its words are
      those of `t`, lower-cased and in order. */
  lemma PreprocessAsJoin(text: string)
    ensures SplitWhitespace(Preprocess(text)) == LowerAll(SplitWhitespace(text))
    ensures Preprocess(text) == Join(LowerAll(SplitWhitespace(text)), " ")
  {
    var lowered := Lower(text);
    RunsStrip(Collapse(lowered));
    RunsCollapse(lowered, false);
    RunsLower(text);
    NormalizedJoin(Preprocess(text));
  }

  /** Collapsing works piece by piece: the second piece starts in a run when the first ends
      in whitespace. */
  lemma {:induction false} CollapseAppend(x: string, y: string, inRun: bool)
    ensures CollapseFrom(x + y, inRun) ==
      CollapseFrom(x, inRun) + CollapseFrom(y, if x == [] then inRun else IsSpace(x[|x| - 1]))
  {
    if x != [] {
      CollapseAppend(x[1..], y, IsSpace(x[0]));
      assert (x + y)[1..] == x[1..] + y;
      if |x| > 1 {
        assert x[1..][|x| - 2] == x[|x| - 1];
      }
    } else {
      assert x + y == y;
    }
  }

  /** A non-empty stretch of whitespace collapses to one space, or to nothing inside a run. */
  lemma {:induction false} CollapseBlank(s: string, inRun: bool)
    requires s != [] && forall i :: 0 <= i < |s| ==> IsSpace(s[i])
    ensures CollapseFrom(s, inRun) == if inRun then [] else " "
  {
    if |s| > 1 {
      CollapseBlank(s[1..], true);
    }
  }

  /** A word followed by whitespace collapses to the word and one space. */
  lemma CollapseWordBlank(w: string, b: string, rest: string, inRun: bool)
    requires w != [] && forall i :: 0 <= i < |w| ==> NotSpace(w[i])
    requires b != [] && forall i :: 0 <= i < |b| ==> IsSpace(b[i])
    ensures CollapseFrom(w + b + rest, inRun) == w + " " + CollapseFrom(rest, true)
  {
    assert w + b + rest == w + (b + rest);
    CollapseAppend(w, b + rest, inRun);
    CollapseAppend(b, rest, false);
    CollapseFixpoint(w, inRun);
    CollapseBlank(b, false);
  }

  /** `extract_words` (lines 58-62): the set of `\w+` words of the normalized text. */
  function ExtractWords(text: string): (words: set<string>)
    ensures forall w :: w in words <==>
      exists i, j :: MaximalRun(Preprocess(text), IsWordChar, i, j) && w == Preprocess(text)[i..j]
    ensures forall w :: w in words ==>
      w != [] && (forall i :: 0 <= i < |w| ==> IsWordChar(w[i])) && Contains(Preprocess(text), w)
  {
    RunsShape(Preprocess(text), IsWordChar);
    RunsSound(Preprocess(text), IsWordChar);
    RunsComplete(Preprocess(text), IsWordChar);
    Elems(Runs(Preprocess(text), IsWordChar))
  }

  /** The window of `n` words starting at word `i`, joined by single spaces. */
  function Window(words: seq<string>, n: nat, i: nat): string
    requires i + n <= |words|
  {
    Join(words[i..i + n], " ")
  }

  /** `extract_ngrams` (lines 65-73): every window of `n` consecutive words, as a set. */
  method ExtractNgrams(text: string, n: nat) returns (ngrams: set<string>)
    ensures var words := SplitWhitespace(Preprocess(text));
      forall g :: g in ngrams <==> exists i: nat :: i + n <= |words| && g == Window(words, n, i)
    ensures |SplitWhitespace(Preprocess(text))| < n ==> ngrams == {}
  {
    var words := SplitWhitespace(Preprocess(text));
    ngrams := {};
    var i: nat := 0;
    while i < |words| - n + 1
      invariant i <= |words| - n + 1 || i == 0
      invariant forall g :: g in ngrams <==> exists j: nat :: j < i && g == Window(words, n, j)
    {
      var ngram := Join(words[i..i + n], " ");
      assert ngram == Window(words, n, i);
      ngrams := ngrams + {ngram};
      i := i + 1;
    }
  }

  /** `find_snippet` (lines 76-93): from the first case-insensitive occurrence of `term`, the
      next `contextWords + 1` whitespace-separated words of `text`, wrapped in ellipses. */
  function FindSnippet(text: string, term: string, contextWords: nat): (r: string)
    ensures r == [] <==> !Contains(Lower(text), Lower(term))
    ensures r != [] ==> |r| >= 6 && r[..3] == "..." && r[|r| - 3..] == "..."
  {
    var idx := Find(Lower(text), Lower(term));
    if idx < 0 then [] else SnippetAt(text[idx..], contextWords)
  }

  /** The snippet for a match at the front of `u`: its first words, between dots. */
  function SnippetAt(u: string, contextWords: nat): string
  {
    "..." + LeadingWords(u, contextWords + 1) + "..."
  }

  /** The first `count` whitespace-separated words of `u`, joined by single spaces. */
  function LeadingWords(u: string, count: nat): string
  {
    var words := SplitWhitespace(u);
    Join(words[..Min(|words|, count)], " ")
  }

  /** The opening words of `u` start with its first `k` characters when they are not spaces. */
  lemma LeadingWordsStartWith(u: string, k: nat, count: nat)
    requires 1 <= k <= |u| && count >= 1
    requires forall i :: 0 <= i < k ==> NotSpace(u[i])
    ensures u[..k] <= LeadingWords(u, count)
  {
    RunLenAtLeast(u, NotSpace, k);
    var words := SplitWhitespace(u);
    assert words[0] == u[..RunLen(u, NotSpace)];
    var end := Min(|words|, count);
    JoinStartsWithFirst(words[..end], " ");
  }

  /** A case-insensitive prefix match against a word keeps the prefix free of spaces. */
  lemma PrefixNotSpace(u: string, term: string)
    requires forall i :: 0 <= i < |term| ==> !IsSpace(term[i])
    requires Lower(term) <= Lower(u)
    ensures forall i :: 0 <= i < |term| ==> NotSpace(u[i])
  {
    forall i | 0 <= i < |term| ensures NotSpace(u[i]) {
      assert LowerChar(u[i]) == Lower(u)[i] == Lower(term)[i] == LowerChar(term[i]);
    }
  }

  /** The text from the first case-insensitive occurrence on starts with the term, up to case. */
  lemma FoundTermOpens(text: string, term: string)
    requires Contains(Lower(text), Lower(term))
    ensures var idx := Find(Lower(text), Lower(term));
      0 <= idx && Lower(term) <= Lower(text[idx..])
  {
    var idx := Find(Lower(text), Lower(term));
    LowerSlice(text, idx, |text|);
    assert text[idx..|text|] == text[idx..];
  }

  /** A prefix of the middle of `"..." + middle + "..."` sits right after the opening dots. */
  lemma InsideDots(p: string, middle: string)
    requires p <= middle
    ensures var r := "..." + middle + "...";
      3 + |p| <= |r| && r[3..3 + |p|] == p
  {
    var r := "..." + middle + "...";
    forall k | 0 <= k < |p| ensures r[3 + k] == p[k] {
      assert r[3 + k] == middle[k];
    }
  }

  /** A one-word term found at the front of `u` opens the leading words of `u`. */
  lemma WordsOpenWithTerm(u: string, term: string, count: nat)
    requires term != [] && forall i :: 0 <= i < |term| ==> !IsSpace(term[i])
    requires Lower(term) <= Lower(u) && count >= 1
    ensures |term| <= |u| && u[..|term|] <= LeadingWords(u, count)
  {
    PrefixNotSpace(u, term);
    LeadingWordsStartWith(u, |term|, count);
  }

  /** After the opening dots, the snippet repeats the text from the match on, for as long as
      the term when that stretch holds no space. */
  lemma SnippetOpens(u: string, term: string, contextWords: nat)
    requires term != [] && forall i :: 0 <= i < |term| ==> !IsSpace(term[i])
    requires Lower(term) <= Lower(u)
    ensures var r := SnippetAt(u, contextWords);
      |term| <= |u| && 3 + |term| <= |r| && r[3..3 + |term|] == u[..|term|]
  {
    WordsOpenWithTerm(u, term, contextWords + 1);
    InsideDots(u[..|term|], LeadingWords(u, contextWords + 1));
  }

  /** The term, spelt as the text spells it, opens the snippet when it is one word. */
  lemma SnippetStartsWithTerm(text: string, term: string, contextWords: nat)
    requires term != [] && forall i :: 0 <= i < |term| ==> !IsSpace(term[i])
    requires Contains(Lower(text), Lower(term))
    ensures var r := FindSnippet(text, term, contextWords);
      3 + |term| <= |r| && Lower(r[3..3 + |term|]) == Lower(term)
  {
    var idx := Find(Lower(text), Lower(term));
    var u := text[idx..];
    FoundTermOpens(text, term);
    SnippetOpens(u, term, contextWords);
    LowerSlice(u, 0, |term|);
    assert u[0..|term|] == u[..|term|];
  }
}
