/**
 The page tokenizer: `cleanUpWord`, `cleanUpLine`, the line annotation
 `lineCommandPat` (`\A\.(\d+).*(?<!\\)@`), the line counter of
 `getPageGloss`, and `getPageGloss` itself, which records every cleaned token
 of a page at its page and line.
 */
module PageTokenizer {
  import opened Unicode
  import opened Text
  import opened Entries
  import opened GlossaryFormat
  import opened GlossaryStore

  datatype Option<T> = None | Some(value: T)

  // ---- cleaning -----------------------------------------------------------

  /** The characters of `w` outside the categories P, C, Z and N. */
  function KeptChars(w: string): string
  {
    if w == [] then []
    else if Dropped(w[0]) then KeptChars(w[1..])
    else [w[0]] + KeptChars(w[1..])
  }

  /** `cleanUpWord`: drop punctuation, control, separator and number characters, then capitalise. */
  function CleanUpWord(w: string): string
  {
    Capitalize(KeptChars(w))
  }

  /** `[cleanUpWord(word) for word in ws]`. */
  function CleanAll(ws: seq<string>): (r: seq<string>)
    ensures |r| == |ws|
    ensures forall i :: 0 <= i < |ws| ==> r[i] == CleanUpWord(ws[i])
  {
    if ws == [] then [] else [CleanUpWord(ws[0])] + CleanAll(ws[1..])
  }

  /** `cleanUpLine`: the cleaned words of the line, joined by single spaces. */
  function CleanUpLine(line: string): string
  {
    JoinSpaced(CleanAll(Words(line)))
  }

  /** The tokens `getPageGloss` records for one line: `cleanUpLine(line).split()`. */
  function LineTokens(line: string): seq<string>
  {
    Words(CleanUpLine(line))
  }

  lemma {:induction false} KeptCharsClean(w: string)
    ensures forall i :: 0 <= i < |KeptChars(w)| ==> !Dropped(KeptChars(w)[i])
  {
    if w != [] {
      KeptCharsClean(w[1..]);
    }
  }

  /** A cleaned word holds no dropped character, hence no whitespace, and is already capitalised. */
  lemma CleanedWordShape(w: string)
    ensures forall i :: 0 <= i < |CleanUpWord(w)| ==> !Dropped(CleanUpWord(w)[i])
    ensures AllMembers(NonSpace, CleanUpWord(w))
    ensures Capitalize(CleanUpWord(w)) == CleanUpWord(w)
  {
    var k := KeptChars(w);
    KeptCharsClean(w);
    CapitalizeShape(k);
    CapitalizeKeepsClass(k);
    CapitalizeIdempotent(k);
    forall i | 0 <= i < |CleanUpWord(w)| ensures !IsSpace(CleanUpWord(w)[i]) {
      if IsSpace(CleanUpWord(w)[i]) {
        SpaceIsDropped(CleanUpWord(w)[i]);
      }
    }
  }

  /**
   Re-splitting the cleaned line gives exactly the non-empty cleaned words: a
   token that cleans to nothing contributes nothing, and no cleaned word
   splits further.
   */
  lemma LineTokensAreCleanedWords(line: string)
    ensures LineTokens(line) == NonEmpty(CleanAll(Words(line)))
  {
    var cs := CleanAll(Words(line));
    forall i | 0 <= i < |cs| ensures AllMembers(NonSpace, cs[i]) {
      CleanedWordShape(Words(line)[i]);
    }
    WordsOfJoin(cs);
  }

  lemma {:induction false} NonEmptyMembers(ws: seq<string>, w: string)
    requires w in NonEmpty(ws)
    ensures w != [] && w in ws
  {
    if ws != [] {
      if ws[0] != [] && w == ws[0] {
      } else {
        NonEmptyMembers(ws[1..], w);
      }
    }
  }

  /** Every recorded token is the non-empty cleaned form of a whitespace-separated word of its line. */
  lemma TokenOrigin(line: string, tok: string)
    requires tok in LineTokens(line)
    ensures tok != []
    ensures exists i :: 0 <= i < |Words(line)| && tok == CleanUpWord(Words(line)[i])
  {
    LineTokensAreCleanedWords(line);
    NonEmptyMembers(CleanAll(Words(line)), tok);
    var i :| 0 <= i < |CleanAll(Words(line))| && CleanAll(Words(line))[i] == tok;
  }

  // ---- line annotations ---------------------------------------------------

  /** No newline in `s[n..j]` (`.` does not match a newline). */
  predicate NoNewline(s: string, n: nat, j: nat)
  {
    forall q :: n <= q < j && q < |s| ==> s[q] != '\n'
  }

  /** Some `@` at index `j >= n`, not preceded by a backslash, with no newline in `line[n..j]`. */
  predicate UnescapedAtFrom(line: string, n: nat)
    requires 1 <= n
  {
    exists j :: n <= j < |line| && line[j] == '@' && line[j - 1] != '\\' && NoNewline(line, n, j)
  }

  /**
   `lineCommandPat.match(line)`: a `.`, then a (maximal) run of ASCII digits,
   then, possibly after other characters, an unescaped `@`; the result is the
   value of the digits.
   */
  function Annotation(line: string): Option<nat>
  {
    if |line| >= 2 && line[0] == '.' && IsAsciiDigit(line[1]) then
      var n := 1 + RunLength(Digit, line[1..]);
      assert line[1..n] == line[1..][..n - 1];
      if UnescapedAtFrom(line, n) then Some(ParseDecimal(line[1..n])) else None
    else None
  }

  /** An `@` that is always written `\@` never triggers an annotation. */
  lemma EscapedAtNeverAnnotates(line: string)
    requires forall j :: 0 < j < |line| && line[j] == '@' ==> line[j - 1] == '\\'
    ensures Annotation(line) == None
  {
  }

  /** A line that does not start with `.` and a digit is never annotated. */
  lemma UnmarkedLineNotAnnotated(line: string)
    requires |line| < 2 || line[0] != '.' || !IsAsciiDigit(line[1])
    ensures Annotation(line) == None
  {
  }

  /** A line `.ds ... @ ...` with a digit string `ds`, a non-digit after it and an@ on the first line is annotated with the value of `ds`. */
  lemma AnnotatedLine(ds: string, mid: string, rest: string)
    requires ds != [] && AllMembers(Digit, ds)
    requires mid == [] || !IsAsciiDigit(mid[0])
    requires forall q :: 0 <= q < |mid| ==> mid[q] != '\n'
    requires mid == [] || mid[|mid| - 1] != '\\'
    ensures Annotation("." + ds + mid + "@" + rest) == Some(ParseDecimal(ds))
  {
    var tail := mid + ("@" + rest);
    var line := "." + ds + mid + "@" + rest;
    var n := 1 + |ds|;
    AnnotatedLayout(ds, mid, rest);
    DotLayout(line, ds, tail);
    RunLengthOfRun(Digit, ds, tail);
    AtAfterDigits(line, n, mid, rest);
    AnnotationOf(line, n);
  }

  /**
   Conversely, an annotated line has exactly the layout of `AnnotatedLine`: `.`,
   a maximal run of digits whose value is the annotation, text without a
   newline not ending in `\`, then `@`.
   */
  lemma AnnotationMeansLayout(line: string, v: nat)
    requires Annotation(line) == Some(v)
    ensures exists ds: string, mid: string, rest: string ::
      && line == "." + ds + mid + "@" + rest
      && ds != [] && AllMembers(Digit, ds) && v == ParseDecimal(ds)
      && (mid == [] || !IsAsciiDigit(mid[0]))
      && (forall q :: 0 <= q < |mid| ==> mid[q] != '\n')
      && (mid == [] || mid[|mid| - 1] != '\\')
  {
    var n := 1 + RunLength(Digit, line[1..]);
    assert line[1..n] == line[1..][..n - 1];
    var j :| n <= j < |line| && line[j] == '@' && line[j - 1] != '\\' && NoNewline(line, n, j);
    var ds, mid, rest := line[1..n], line[n..j], line[j + 1..];
    SplitAroundAt(line, n, j);
    assert mid != [] ==> mid[0] == line[1..][n - 1];
    assert mid != [] ==> mid[|mid| - 1] == line[j - 1];
    forall q | 0 <= q < |mid| ensures mid[q] != '\n' {
      assert mid[q] == line[n + q];
    }
    assert line == "." + ds + mid + "@" + rest;
  }

  /** Cutting a line at the end `n` of its digit run and at an `@` at index `j`. */
  lemma SplitAroundAt(line: string, n: nat, j: nat)
    requires 1 <= n <= j < |line| && line[0] == '.' && line[j] == '@'
    ensures line == "." + line[1..n] + line[n..j] + "@" + line[j + 1..]
  {
    assert line == line[..1] + line[1..n] + line[n..j] + line[j..j + 1] + line[j + 1..];
  }

  /** Re-brackets an annotated line as `.` followed by the digits and the tail; kept apart to keep `AnnotatedLine` small. */
  lemma AnnotatedLayout(ds: string, mid: string, rest: string)
    ensures "." + ds + mid + "@" + rest == "." + (ds + (mid + ("@" + rest)))
    ensures mid + ("@" + rest) != [] && (mid + ("@" + rest))[0] == if mid == [] then '@' else mid[0]
  {
  }

  /** Indexing into `.` followed by the digits and the tail. */
  lemma DotLayout(line: string, ds: string, tail: string)
    requires ds != [] && line == "." + (ds + tail)
    ensures |line| == 1 + |ds| + |tail| && line[0] == '.' && line[1] == ds[0]
    ensures line[1..] == ds + tail && line[1..1 + |ds|] == ds && line[1 + |ds|..] == tail
    ensures (1 + |ds| > 1 ==> line[|ds|] == ds[|ds| - 1])
  {
  }

  /** The annotation of a line whose digit run ends before `n` and which has an unescaped `@` from `n` on. */
  lemma AnnotationOf(line: string, n: nat)
    requires |line| >= 2 && line[0] == '.' && IsAsciiDigit(line[1])
    requires 1 <= n <= |line| && RunLength(Digit, line[1..]) == n - 1
    requires UnescapedAtFrom(line, n)
    ensures AllMembers(Digit, line[1..n])
    ensures Annotation(line) == Some(ParseDecimal(line[1..n]))
  {
    assert line[1..n] == line[1..][..n - 1];
  }

  lemma AtAfterDigits(line: string, n: nat, mid: string, rest: string)
    requires 2 <= n <= |line| && line[n..] == mid + ("@" + rest)
    requires forall q :: 0 <= q < |mid| ==> mid[q] != '\n'
    requires mid == [] ==> line[n - 1] != '\\'
    requires mid != [] ==> mid[|mid| - 1] != '\\'
    ensures UnescapedAtFrom(line, n)
  {
    var j := n + |mid|;
    assert line[j] == line[n..][|mid|];
    if mid != [] {
      assert line[j - 1] == line[n..][|mid| - 1];
    }
    forall q | n <= q < j && q < |line| ensures line[q] != '\n' {
      assert line[q] == line[n..][q - n];
    }
    assert NoNewline(line, n, j);
  }

  // ---- line numbering -----------------------------------------------------

  /** The counter step of `getPageGloss`: an annotation sets it, any other line adds one. */
  function NextLineNumber(prev: int, line: string): int
  {
    var a := Annotation(line);
    if a.Some? then a.value else prev + 1
  }

  /** The line number `getPageGloss` gives each line when the counter starts at `prev`. */
  function LineNumbers(lines: seq<string>, prev: int): seq<int>
  {
    if lines == [] then []
    else
      var n := NextLineNumber(prev, lines[0]);
      [n] + LineNumbers(lines[1..], n)
  }

  /** Each line's number is its annotation, or the previous line's number plus one (for line 0: the start value plus one). */
  lemma {:induction false} LineNumberAt(lines: seq<string>, prev: int, i: nat)
    requires i < |lines|
    ensures |LineNumbers(lines, prev)| == |lines|
    ensures var before := if i == 0 then prev else LineNumbers(lines, prev)[i - 1];
      LineNumbers(lines, prev)[i] == NextLineNumber(before, lines[i])
  {
    if i > 0 {
      LineNumberAt(lines[1..], NextLineNumber(prev, lines[0]), i - 1);
    } else {
      LineNumbersLength(lines, prev);
    }
  }

  lemma {:induction false} LineNumbersLength(lines: seq<string>, prev: int)
    ensures |LineNumbers(lines, prev)| == |lines|
  {
    if lines != [] {
      LineNumbersLength(lines[1..], NextLineNumber(prev, lines[0]));
    }
  }

  /** With the counter starting at 1, as in `getPageGloss`, an unannotated first line is line 2. */
  lemma FirstUnannotatedLineIsTwo(lines: seq<string>)
    requires lines != [] && Annotation(lines[0]) == None
    ensures LineNumbers(lines, 1)[0] == 2
  {
  }

  /** After line `j`, unannotated lines continue counting up by one from line `j`'s number. */
  lemma {:induction false} CountingContinues(lines: seq<string>, prev: int, j: nat, i: nat)
    requires j <= i < |lines|
    requires forall k :: j < k <= i ==> Annotation(lines[k]) == None
    ensures |LineNumbers(lines, prev)| == |lines|
    ensures LineNumbers(lines, prev)[i] == LineNumbers(lines, prev)[j] + (i - j)
    decreases i - j
  {
    LineNumbersLength(lines, prev);
    if i > j {
      CountingContinues(lines, prev, j, i - 1);
      LineNumberAt(lines, prev, i);
    }
  }

  /** Without any annotation, line `i` (from 0) gets number `prev + i + 1`. */
  lemma {:induction false} CountingFromStart(lines: seq<string>, prev: int, i: nat)
    requires i < |lines|
    requires forall k :: 0 <= k <= i ==> Annotation(lines[k]) == None
    ensures |LineNumbers(lines, prev)| == |lines|
    ensures LineNumbers(lines, prev)[i] == prev + i + 1
  {
    LineNumberAt(lines, prev, 0);
    CountingContinues(lines, prev, 0, i);
  }

  /** An annotated first line sets the counter, and the next unannotated line continues from it. */
  lemma AnnotationOverrideExample()
    ensures LineNumbers([".5 @Hello world", "Foo bar"], 1) == [5, 6]
  {
    var lines := [".5 @Hello world", "Foo bar"];
    AnnotatedFive();
    UnmarkedLineNotAnnotated(lines[1]);
    LineNumberAt(lines, 1, 0);
    LineNumberAt(lines, 1, 1);
  }

  lemma AnnotatedFive()
    ensures Annotation(".5 @Hello world") == Some(5)
  {
    var ds, mid, rest := "5", " ", "Hello world";
    assert AllMembers(Digit, ds);
    assert ParseDecimal(ds) == 5 by {
      assert ds[..0] == [];
    }
    assert !IsAsciiDigit(mid[0]) && mid[0] != '\n' && mid[0] != '\\';
    AnnotatedLine(ds, mid, rest);
    assert "." + ds + mid + "@" + rest == ".5 @Hello world";
  }

  // ---- occurrences and the page glossary ----------------------------------

  /** The tokens of one line, each as one occurrence at `(page, line)`. */
  function Tag(toks: seq<string>, page: int, line: int): (r: seq<Item>)
    ensures |r| == |toks|
    ensures forall k :: 0 <= k < |toks| ==> r[k] == (toks[k], Entry(page, line, 1))
  {
    if toks == [] then [] else [(toks[0], Entry(page, line, 1))] + Tag(toks[1..], page, line)
  }

  /** The occurrences of a page in reading order, each token with its line number. */
  function OccurrencesFrom(lines: seq<string>, prev: int, page: int): seq<Item>
  {
    if lines == [] then []
    else
      var n := NextLineNumber(prev, lines[0]);
      Tag(LineTokens(lines[0]), page, n) + OccurrencesFrom(lines[1..], n, page)
  }

  function Occurrences(lines: seq<string>, page: int): seq<Item>
  {
    OccurrencesFrom(lines, 1, page)
  }

  /** What `getPageGloss(lines, page)` builds: every occurrence fed to `updateWord`. */
  function PageGloss(lines: seq<string>, page: int): Store
  {
    UpdateAll(map[], Occurrences(lines, page))
  }

  /** Every occurrence is a recorded token of some line, at that line's number, page `page`, frequency 1. */
  predicate OccurrenceOf(lines: seq<string>, prev: int, page: int, o: Item)
  {
    && o.1.page == page && o.1.freq == 1
    && exists i :: 0 <= i < |lines| && i < |LineNumbers(lines, prev)|
         && o.1.line == LineNumbers(lines, prev)[i] && o.0 in LineTokens(lines[i])
  }

  lemma {:induction false} OccurrencesShape(lines: seq<string>, prev: int, page: int)
    ensures forall k :: 0 <= k < |OccurrencesFrom(lines, prev, page)| ==>
      OccurrenceOf(lines, prev, page, OccurrencesFrom(lines, prev, page)[k])
  {
    if lines != [] {
      var n := NextLineNumber(prev, lines[0]);
      var head := Tag(LineTokens(lines[0]), page, n);
      var tail := OccurrencesFrom(lines[1..], n, page);
      OccurrencesShape(lines[1..], n, page);
      LineNumbersLength(lines, prev);
      forall k | 0 <= k < |head + tail| ensures OccurrenceOf(lines, prev, page, (head + tail)[k]) {
        if k < |head| {
          assert (head + tail)[k] == (LineTokens(lines[0])[k], Entry(page, n, 1));
          assert LineNumbers(lines, prev)[0] == n;
        } else {
          var o := tail[k - |head|];
          assert (head + tail)[k] == o;
          assert OccurrenceOf(lines[1..], n, page, o);
          var i :| 0 <= i < |lines[1..]| && i < |LineNumbers(lines[1..], n)|
            && o.1.line == LineNumbers(lines[1..], n)[i] && o.0 in LineTokens(lines[1..][i]);
          assert LineNumbers(lines, prev)[i + 1] == LineNumbers(lines[1..], n)[i];
          assert lines[i + 1] == lines[1..][i];
        }
      }
    }
  }

  /** Occurrences whose word is `w`. */
  function CountOf(items: seq<Item>, w: string): nat
  {
    if items == [] then 0 else (if items[0].0 == w then 1 else 0) + CountOf(items[1..], w)
  }

  lemma {:induction false} SumFreqOfUnitItems(items: seq<Item>, w: string)
    requires forall k :: 0 <= k < |items| ==> items[k].1.freq == 1
    ensures SumFreq(items, w) == CountOf(items, w)
  {
    if items != [] {
      SumFreqOfUnitItems(items[1..], w);
    }
  }

  /**
   The page glossary: its words are the recorded tokens; each entry has page
   `page`, the line of the token's first occurrence, and as frequency the
   number of its occurrences.
   */
  lemma PageGlossContents(lines: seq<string>, page: int, w: string)
    ensures w in PageGloss(lines, page) <==> w in WordsOf(Occurrences(lines, page))
    ensures w in PageGloss(lines, page) ==>
      var occ := Occurrences(lines, page);
      var e := PageGloss(lines, page)[w];
      && e.page == page
      && e.freq == CountOf(occ, w)
      && e.line == occ[FirstIndex(occ, w)].1.line
  {
    var occ := Occurrences(lines, page);
    UpdateAllKeys(map[], occ);
    if w in PageGloss(lines, page) {
      OccurrencesShape(lines, 1, page);
      UpdateAllFirstPosition(map[], occ, w);
      UpdateAllFreq(map[], occ, w);
      SumFreqOfUnitItems(occ, w);
    }
  }

  /** Every word of a page glossary is the non-empty cleaned form of a word of one of its lines. */
  lemma PageGlossKeys(lines: seq<string>, page: int, w: string)
    requires w in PageGloss(lines, page)
    ensures w != [] && AllMembers(NonSpace, w) && Capitalize(w) == w
    ensures exists i, k :: 0 <= i < |lines| && 0 <= k < |Words(lines[i])| && w == CleanUpWord(Words(lines[i])[k])
  {
    var occ := Occurrences(lines, page);
    UpdateAllKeys(map[], occ);
    var x :| 0 <= x < |occ| && occ[x].0 == w;
    OccurrencesShape(lines, 1, page);
    assert OccurrenceOf(lines, 1, page, occ[x]);
    var i :| 0 <= i < |lines| && i < |LineNumbers(lines, 1)| && w in LineTokens(lines[i]);
    TokenOrigin(lines[i], w);
    var k :| 0 <= k < |Words(lines[i])| && w == CleanUpWord(Words(lines[i])[k]);
    CleanedWordShape(Words(lines[i])[k]);
  }

  /** A page glossary can always be written and read back. */
  lemma PageGlossWritable(lines: seq<string>, page: int)
    ensures WritableKeys(PageGloss(lines, page))
  {
    forall w | w in PageGloss(lines, page)
      ensures w != [] && AllMembers(NonSpace, w) && Capitalize(w) == w
    {
      PageGlossKeys(lines, page, w);
    }
  }

  /** The occurrences from line `i` on: those of line `i`, then those of the lines after it. */
  lemma OccurrencesAt(lines: seq<string>, i: nat, prev: int, page: int)
    requires i < |lines|
    ensures OccurrencesFrom(lines[i..], prev, page)
         == Tag(LineTokens(lines[i]), page, NextLineNumber(prev, lines[i]))
            + OccurrencesFrom(lines[i + 1..], NextLineNumber(prev, lines[i]), page)
  {
    assert lines[i..][0] == lines[i];
    assert lines[i..][1..] == lines[i + 1..];
  }

  /** Recording token `j` of a line is the first update of the remaining tokens. */
  lemma TagStep(g: Store, words: seq<string>, j: nat, page: int, line: int)
    requires j < |words|
    ensures UpdateAll(Upd(g, words[j], page, line, 1), Tag(words[j + 1..], page, line))
         == UpdateAll(g, Tag(words[j..], page, line))
  {
    var s := Tag(words[j..], page, line);
    assert s[0] == (words[j], Entry(page, line, 1));
    assert s[1..] == Tag(words[j + 1..], page, line);
  }

  /** The inner loop of `getPageGloss`: every token of one line fed to `updateWord` at `(pageN, lineN)`. */
  method RecordTokens(gloss: Glossary, words: seq<string>, pageN: int, lineN: int)
    modifies gloss
    ensures gloss.wordsInf == UpdateAll(old(gloss.wordsInf), Tag(words, pageN, lineN))
  {
    ghost var m0 := gloss.wordsInf;
    for j := 0 to |words|
      invariant UpdateAll(gloss.wordsInf, Tag(words[j..], pageN, lineN)) == UpdateAll(m0, Tag(words, pageN, lineN))
    {
      TagStep(gloss.wordsInf, words, j, pageN, lineN);
      gloss.UpdateWord(words[j], pageN, lineN, 1);
    }
    assert words[|words|..] == [];
    assert words[0..] == words;
  }

  /** Recording the tokens of line `i` turns the work left at line `i` into the work left at line `i + 1`. */
  lemma LineStep(g: Store, lines: seq<string>, i: nat, prev: int, page: int)
    requires i < |lines|
    ensures var n := NextLineNumber(prev, lines[i]);
      UpdateAll(UpdateAll(g, Tag(LineTokens(lines[i]), page, n)), OccurrencesFrom(lines[i + 1..], n, page))
      == UpdateAll(g, OccurrencesFrom(lines[i..], prev, page))
  {
    var n := NextLineNumber(prev, lines[i]);
    OccurrencesAt(lines, i, prev, page);
    UpdateAllAppend(g, Tag(LineTokens(lines[i]), page, n), OccurrencesFrom(lines[i + 1..], n, page));
  }

  /**
   `getPageGloss(lines, pageN)`: a fresh glossary into which every token of
   every cleaned line is fed with `updateWord(word, pageN, lineN, 1)`, the
   line counter starting at 1.
   */
  method GetPageGloss(lines: seq<string>, pageN: int) returns (gloss: Glossary)
    ensures fresh(gloss)
    ensures gloss.wordsInf == PageGloss(lines, pageN)
  {
    gloss := new Glossary();
    var lineN := 1;
    for i := 0 to |lines|
      invariant fresh(gloss)
      invariant UpdateAll(gloss.wordsInf, OccurrencesFrom(lines[i..], lineN, pageN)) == PageGloss(lines, pageN)
    {
      ghost var prev, g := lineN, gloss.wordsInf;
      var line := lines[i];
      var annot := Annotation(line);
      if annot == None {
        lineN := lineN + 1;
      } else {
        lineN := annot.value;
      }
      assert lineN == NextLineNumber(prev, line);
      var words := Words(CleanUpLine(line));
      RecordTokens(gloss, words, pageN, lineN);
      LineStep(g, lines, i, prev, pageN);
    }
  }
}
