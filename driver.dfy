/**
 The page loop of `main`: every page glossary first gives up the words of the
 ignore list (their frequencies go to the ignore list), then the words already
 in the total glossary (their frequencies go to the total); what is left is
 new, is copied into the total, and is the page's own glossary. Afterwards
 every page glossary is written by occurrence and the total alphabetically.
 */
module Driver {
  import opened Unicode
  import opened Text
  import opened Entries
  import opened Ordering
  import opened GlossaryFormat
  import opened GlossaryStore
  import opened PageTokenizer

  /** The two glossaries the page loop accumulates into. */
  datatype State = State(ignore: Store, total: Store)

  /** One iteration of the page loop on a page glossary `g`: the new state and what is left of `g`. */
  function PageStep(st: State, g: Store): (State, Store)
  {
    var resI := Restrict(g, st.ignore.Keys);
    var g1 := g - st.ignore.Keys;
    var resT := Restrict(g1, st.total.Keys);
    var g2 := g1 - st.total.Keys;
    (State(MergeInto(st.ignore, resI), MergeInto(MergeInto(st.total, g2), resT)), g2)
  }

  /** The page loop over the page glossaries `raws`, in order. */
  function Run(st: State, raws: seq<Store>): (State, seq<Store>)
    decreases |raws|
  {
    if raws == [] then (st, [])
    else
      var r := Run(st, raws[..|raws| - 1]);
      var s := PageStep(r.0, raws[|raws| - 1]);
      (s.0, r.1 + [s.1])
  }

  /** The words of all of `raws`. */
  function Seen(raws: seq<Store>): set<string>
    decreases |raws|
  {
    if raws == [] then {} else Seen(raws[..|raws| - 1]) + raws[|raws| - 1].Keys
  }

  /** The frequency of `w` summed over all of `raws`. */
  function PageFreq(raws: seq<Store>, w: string): int
    decreases |raws|
  {
    if raws == [] then 0 else PageFreq(raws[..|raws| - 1], w) + FreqIn(raws[|raws| - 1], w)
  }

  // ---- one page -----------------------------------------------------------

  /** The ignore list keeps its words and positions and gains the frequencies of the page's ignored words. */
  lemma PageStepIgnore(st: State, g: Store, w: string)
    ensures PageStep(st, g).0.ignore.Keys == st.ignore.Keys
    ensures FreqIn(PageStep(st, g).0.ignore, w) == FreqIn(st.ignore, w) + (if w in st.ignore then FreqIn(g, w) else 0)
    ensures w in st.ignore ==>
      PageStep(st, g).0.ignore[w].page == st.ignore[w].page && PageStep(st, g).0.ignore[w].line == st.ignore[w].line
  {
    MergeContents(st.ignore, Restrict(g, st.ignore.Keys));
  }

  /** What is left of the page is exactly its words outside the ignore list and the total, with their entries. */
  lemma PageStepLeft(st: State, g: Store)
    ensures PageStep(st, g).1 == g - (st.ignore.Keys + st.total.Keys)
  {
  }

  /**
   The total gains the page's words outside the ignore list; a word already in
   the total keeps its position and adds the page's frequency, a new word
   takes the page's entry.
   */
  lemma PageStepTotal(st: State, g: Store, w: string)
    ensures PageStep(st, g).0.total.Keys == st.total.Keys + (g.Keys - st.ignore.Keys)
    ensures FreqIn(PageStep(st, g).0.total, w) == FreqIn(st.total, w) + (if w in st.ignore then 0 else FreqIn(g, w))
    ensures w in st.total ==>
      PageStep(st, g).0.total[w].page == st.total[w].page && PageStep(st, g).0.total[w].line == st.total[w].line
    ensures w !in st.total && w !in st.ignore && w in g ==> PageStep(st, g).0.total[w] == g[w]
  {
    var g1 := g - st.ignore.Keys;
    var resT := Restrict(g1, st.total.Keys);
    var g2 := g1 - st.total.Keys;
    var t1 := MergeInto(st.total, g2);
    var t2 := MergeInto(t1, resT);
    assert PageStep(st, g).0.total == t2;
    MergeContents(st.total, g2);
    MergeContents(t1, resT);
    MergeFreq(st.total, g2, w);
    MergeFreq(t1, resT, w);
    assert FreqIn(g2, w) + FreqIn(resT, w) == (if w in st.ignore then 0 else FreqIn(g, w));
  }

  // ---- the whole loop -----------------------------------------------------

  lemma RunLast(st: State, raws: seq<Store>)
    requires raws != []
    ensures Run(st, raws) == (PageStep(Run(st, raws[..|raws| - 1]).0, raws[|raws| - 1]).0,
                              Run(st, raws[..|raws| - 1]).1 + [PageStep(Run(st, raws[..|raws| - 1]).0, raws[|raws| - 1]).1])
  {
  }

  /** The ignore list keeps its words; each of them gains its frequency on every page. */
  lemma {:induction false} RunIgnore(st: State, raws: seq<Store>, w: string)
    ensures Run(st, raws).0.ignore.Keys == st.ignore.Keys
    ensures FreqIn(Run(st, raws).0.ignore, w) == FreqIn(st.ignore, w) + (if w in st.ignore then PageFreq(raws, w) else 0)
    ensures w in st.ignore ==>
      Run(st, raws).0.ignore[w].page == st.ignore[w].page && Run(st, raws).0.ignore[w].line == st.ignore[w].line
    decreases |raws|
  {
    if raws != [] {
      var pre := raws[..|raws| - 1];
      RunIgnore(st, pre, w);
      PageStepIgnore(Run(st, pre).0, raws[|raws| - 1], w);
    }
  }

  /** The total holds its initial words and every word of the pages that is not ignored. */
  lemma {:induction false} RunTotalKeys(st: State, raws: seq<Store>)
    ensures Run(st, raws).0.total.Keys == st.total.Keys + (Seen(raws) - st.ignore.Keys)
    decreases |raws|
  {
    if raws != [] {
      var pre := raws[..|raws| - 1];
      RunTotalKeys(st, pre);
      RunIgnore(st, pre, "");
      PageStepTotal(Run(st, pre).0, raws[|raws| - 1], "");
    }
  }

  /** A word outside the ignore list ends with its initial total frequency plus its frequency on every page. */
  lemma {:induction false} RunTotalFreq(st: State, raws: seq<Store>, w: string)
    requires w !in st.ignore
    ensures FreqIn(Run(st, raws).0.total, w) == FreqIn(st.total, w) + PageFreq(raws, w)
    decreases |raws|
  {
    if raws != [] {
      var pre := raws[..|raws| - 1];
      RunTotalFreq(st, pre, w);
      RunIgnore(st, pre, w);
      PageStepTotal(Run(st, pre).0, raws[|raws| - 1], w);
    }
  }

  /** A word already in the total keeps its position. */
  lemma {:induction false} RunTotalKeepsPosition(st: State, raws: seq<Store>, w: string)
    requires w in st.total
    ensures w in Run(st, raws).0.total
    ensures Run(st, raws).0.total[w].page == st.total[w].page && Run(st, raws).0.total[w].line == st.total[w].line
    decreases |raws|
  {
    RunTotalKeys(st, raws);
    if raws != [] {
      var pre := raws[..|raws| - 1];
      RunTotalKeepsPosition(st, pre, w);
      PageStepTotal(Run(st, pre).0, raws[|raws| - 1], w);
    }
  }

  lemma SeenPrefix(raws: seq<Store>, i: nat, j: nat)
    requires i <= j <= |raws|
    ensures Seen(raws[..i]) <= Seen(raws[..j])
    decreases j - i
  {
    if i < j {
      SeenPrefix(raws, i, j - 1);
      assert raws[..j][..j - 1] == raws[..j - 1];
    }
  }

  lemma SeenHas(raws: seq<Store>, i: nat, w: string)
    requires i < |raws| && w in raws[i]
    ensures w in Seen(raws)
  {
    SeenPrefix(raws, i + 1, |raws|);
    assert raws[..i + 1][..i] == raws[..i];
    assert raws[..|raws|] == raws;
  }

  /** A new word takes its position from the first page on which it appears. */
  lemma {:induction false} RunTotalFirstPosition(st: State, raws: seq<Store>, i: nat, w: string)
    requires i < |raws| && w in raws[i] && w !in Seen(raws[..i])
    requires w !in st.total && w !in st.ignore
    ensures w in Run(st, raws).0.total
    ensures Run(st, raws).0.total[w].page == raws[i][w].page && Run(st, raws).0.total[w].line == raws[i][w].line
    decreases |raws|
  {
    var pre := raws[..|raws| - 1];
    var last := raws[|raws| - 1];
    RunTotalKeys(st, raws);
    SeenHas(raws, i, w);
    RunIgnore(st, pre, w);
    if i == |raws| - 1 {
      RunTotalKeys(st, pre);
      PageStepTotal(Run(st, pre).0, last, w);
    } else {
      assert pre[i] == raws[i] && pre[..i] == raws[..i];
      RunTotalFirstPosition(st, pre, i, w);
      PageStepTotal(Run(st, pre).0, last, w);
    }
  }

  lemma {:induction false} RunCount(st: State, raws: seq<Store>)
    ensures |Run(st, raws).1| == |raws|
    decreases |raws|
  {
    if raws != [] {
      RunCount(st, raws[..|raws| - 1]);
    }
  }

  /** The last page keeps exactly its words outside the ignore list, the initial total and all earlier pages. */
  lemma RunLastPage(st: State, raws: seq<Store>)
    requires raws != []
    ensures |Run(st, raws).1| == |raws|
    ensures Run(st, raws).1[|raws| - 1] == raws[|raws| - 1] - (st.ignore.Keys + st.total.Keys + Seen(raws[..|raws| - 1]))
  {
    var pre := raws[..|raws| - 1];
    var last := raws[|raws| - 1];
    var kept := Run(st, pre).1;
    var mid := Run(st, pre).0;
    assert Run(st, raws).1 == kept + [PageStep(mid, last).1];
    RunCount(st, pre);
    RunIgnore(st, pre, "");
    RunTotalKeys(st, pre);
    PageStepLeft(mid, last);
    assert mid.ignore.Keys + mid.total.Keys == st.ignore.Keys + st.total.Keys + Seen(pre);
  }

  /** Page `i` keeps exactly its words outside the ignore list, the initial total and all earlier pages. */
  lemma {:induction false} RunPageAt(st: State, raws: seq<Store>, i: nat)
    requires i < |raws|
    ensures |Run(st, raws).1| == |raws|
    ensures Run(st, raws).1[i] == raws[i] - (st.ignore.Keys + st.total.Keys + Seen(raws[..i]))
    decreases |raws|
  {
    if i == |raws| - 1 {
      RunLastPage(st, raws);
    } else {
      var pre := raws[..|raws| - 1];
      RunCount(st, pre);
      RunPageAt(st, pre, i);
      assert pre[i] == raws[i] && pre[..i] == raws[..i];
    }
  }

  lemma RunPages(st: State, raws: seq<Store>)
    ensures |Run(st, raws).1| == |raws|
    ensures forall i :: 0 <= i < |raws| ==>
      Run(st, raws).1[i] == raws[i] - (st.ignore.Keys + st.total.Keys + Seen(raws[..i]))
  {
    RunCount(st, raws);
    forall i | 0 <= i < |raws|
      ensures Run(st, raws).1[i] == raws[i] - (st.ignore.Keys + st.total.Keys + Seen(raws[..i]))
    {
      RunPageAt(st, raws, i);
    }
  }

  /** Page glossaries hold no ignored word and no two of them share a word. */
  lemma PagesDisjoint(st: State, raws: seq<Store>, i: nat, j: nat)
    requires i < j < |raws|
    ensures |Run(st, raws).1| == |raws|
    ensures Run(st, raws).1[i].Keys !! Run(st, raws).1[j].Keys
    ensures Run(st, raws).1[i].Keys !! st.ignore.Keys
    ensures Run(st, raws).1[j].Keys !! st.ignore.Keys
  {
    RunPages(st, raws);
    forall w | w in Run(st, raws).1[i] ensures w in Seen(raws[..j]) {
      assert raws[..j][i] == raws[i];
      SeenHas(raws[..j], i, w);
    }
  }

  /**
   Starting from an empty total, a word is in the total exactly when it is in
   some page glossary, and the total never holds an ignored word.
   */
  lemma PagesCoverTotal(ignore: Store, raws: seq<Store>, w: string)
    ensures |Run(State(ignore, map[]), raws).1| == |raws|
    ensures Run(State(ignore, map[]), raws).0.total.Keys !! Run(State(ignore, map[]), raws).0.ignore.Keys
    ensures w in Run(State(ignore, map[]), raws).0.total <==>
      exists i :: 0 <= i < |raws| && w in Run(State(ignore, map[]), raws).1[i]
  {
    var st := State(ignore, map[]);
    RunPages(st, raws);
    RunTotalKeys(st, raws);
    RunIgnore(st, raws, w);
    if w in Run(st, raws).0.total {
      var i := FirstSeen(raws, w);
      assert w in Run(st, raws).1[i];
    }
    if exists i :: 0 <= i < |raws| && w in Run(st, raws).1[i] {
      var i :| 0 <= i < |raws| && w in Run(st, raws).1[i];
      SeenHas(raws, i, w);
    }
  }

  /** The first page that has `w`. */
  lemma {:induction false} FirstSeen(raws: seq<Store>, w: string) returns (i: nat)
    requires w in Seen(raws)
    ensures i < |raws| && w in raws[i] && w !in Seen(raws[..i])
    decreases |raws|
  {
    var pre := raws[..|raws| - 1];
    if w in Seen(pre) {
      i := FirstSeen(pre, w);
      assert pre[i] == raws[i] && pre[..i] == raws[..i];
    } else {
      i := |raws| - 1;
    }
  }

  // ---- the imperative loop ------------------------------------------------

  /** The page glossaries `getPageGloss` builds for the numbered pages. */
  function Raws(pages: seq<(int, seq<string>)>): (r: seq<Store>)
    ensures |r| == |pages|
    ensures forall i :: 0 <= i < |pages| ==> r[i] == PageGloss(pages[i].1, pages[i].0)
  {
    seq(|pages|, i requires 0 <= i < |pages| => PageGloss(pages[i].1, pages[i].0))
  }

  /** One iteration of the page loop of `main`. */
  method ProcessPage(pageN: int, lines: seq<string>, ignoreGloss: Glossary, totalGloss: Glossary)
    returns (gloss: Glossary)
    requires ignoreGloss != totalGloss
    modifies ignoreGloss, totalGloss
    ensures fresh(gloss)
    ensures var s := PageStep(State(old(ignoreGloss.wordsInf), old(totalGloss.wordsInf)), PageGloss(lines, pageN));
      ignoreGloss.wordsInf == s.0.ignore && totalGloss.wordsInf == s.0.total && gloss.wordsInf == s.1
  {
    gloss := GetPageGloss(lines, pageN);
    var resI := gloss.Diff(ignoreGloss);
    ignoreGloss.Merge(resI);
    var resT := gloss.Diff(totalGloss);
    totalGloss.Merge(gloss);
    totalGloss.Merge(resT);
  }

  /** One more page extends the loop's results by one `PageStep`. */
  lemma RunStep(st: State, raws: seq<Store>, i: nat, before: State, kept: seq<Store>, after: State, left: Store)
    requires i < |raws|
    requires Run(st, raws[..i]) == (before, kept)
    requires PageStep(before, raws[i]) == (after, left)
    ensures Run(st, raws[..i + 1]) == (after, kept + [left])
  {
    assert raws[..i + 1][..i] == raws[..i];
  }

  /** After the first `i` pages of `raws` the loop has state `st` and kept `kept`. */
  ghost predicate Reached(st0: State, raws: seq<Store>, i: nat, st: State, kept: seq<Store>)
  {
    i <= |raws| && Run(st0, raws[..i]) == (st, kept)
  }

  /** Page `i` of the page loop: `ProcessPage` moves the loop's state one `PageStep` on. */
  method ProcessNext(ghost st0: State, ghost raws: seq<Store>, ghost kept: seq<Store>, ghost sets: seq<(int, Glossary)>,
                     pages: seq<(int, seq<string>)>, i: nat, ignoreGloss: Glossary, totalGloss: Glossary)
    returns (gloss: Glossary)
    requires i < |pages| == |raws| && raws[i] == PageGloss(pages[i].1, pages[i].0)
    requires ignoreGloss != totalGloss
    requires forall k :: 0 <= k < |sets| ==> sets[k].1 != ignoreGloss && sets[k].1 != totalGloss
    requires Reached(st0, raws, i, State(ignoreGloss.wordsInf, totalGloss.wordsInf), kept)
    modifies ignoreGloss, totalGloss
    ensures fresh(gloss)
    ensures forall k :: 0 <= k < |sets| ==> sets[k].1.wordsInf == old(sets[k].1.wordsInf)
    ensures Reached(st0, raws, i + 1, State(ignoreGloss.wordsInf, totalGloss.wordsInf), kept + [gloss.wordsInf])
  {
    ghost var before := State(ignoreGloss.wordsInf, totalGloss.wordsInf);
    gloss := ProcessPage(pages[i].0, pages[i].1, ignoreGloss, totalGloss);
    RunStep(st0, raws, i, before, kept, State(ignoreGloss.wordsInf, totalGloss.wordsInf), gloss.wordsInf);
  }

  /**
   The loop `for pageN, pageFileName in numberedPages` of `main`: `pages`
   holds each page number with the lines of its file, in loop order.
   */
  method ProcessPages(pages: seq<(int, seq<string>)>, ignoreGloss: Glossary)
    returns (pageGlossSets: seq<(int, Glossary)>, totalGloss: Glossary)
    modifies ignoreGloss
    ensures fresh(totalGloss)
    ensures |pageGlossSets| == |pages|
    ensures forall i :: 0 <= i < |pages| ==> pageGlossSets[i].0 == pages[i].0 && fresh(pageGlossSets[i].1)
    ensures var r := Run(State(old(ignoreGloss.wordsInf), map[]), Raws(pages));
      && ignoreGloss.wordsInf == r.0.ignore
      && totalGloss.wordsInf == r.0.total
      && |r.1| == |pages|
      && forall i :: 0 <= i < |pages| ==> pageGlossSets[i].1.wordsInf == r.1[i]
  {
    ghost var st0 := State(ignoreGloss.wordsInf, map[]);
    ghost var raws := Raws(pages);
    ghost var kept: seq<Store> := [];
    pageGlossSets := [];
    totalGloss := new Glossary();
    for i := 0 to |pages|
      invariant fresh(totalGloss)
      invariant |pageGlossSets| == |kept| == i
      invariant forall k :: 0 <= k < i ==>
        && pageGlossSets[k].0 == pages[k].0 && fresh(pageGlossSets[k].1)
        && pageGlossSets[k].1 != totalGloss && pageGlossSets[k].1.wordsInf == kept[k]
      invariant Reached(st0, raws, i, State(ignoreGloss.wordsInf, totalGloss.wordsInf), kept)
    {
      var gloss := ProcessNext(st0, raws, kept, pageGlossSets, pages, i, ignoreGloss, totalGloss);
      pageGlossSets := pageGlossSets + [(pages[i].0, gloss)];
      kept := kept + [gloss.wordsInf];
    }
    assert raws[..|pages|] == raws;
  }

  // ---- output -------------------------------------------------------------

  /** A file written by `writeGlossary`: the formatted lines of some listing of `m` sorted in order `o`. */
  ghost predicate WrittenAs(lines: seq<string>, m: Store, o: Order)
  {
    exists items :: IsListing(items, m) && SortedBy(o, items) && lines == FormatLines(items)
  }

  /** Python 2's `str.lower()` on a byte string: only `A`-`Z` change. */
  function AsciiLower(s: string): (r: string)
    ensures |r| == |s|
    ensures forall i :: 0 <= i < |s| ==> r[i] == if 'A' <= s[i] <= 'Z' then (s[i] as int + 32) as char else s[i]
  {
    if s == [] then [] else [if 'A' <= s[0] <= 'Z' then (s[0] as int + 32) as char else s[0]] + AsciiLower(s[1..])
  }

  /** `"gp%s.txt" % pageN`. */
  function PageFileName(pageN: int): string
  {
    "gp" + IntToString(pageN) + ".txt"
  }

  /** `"gall" + basename.lower() + ".txt"`. */
  function TotalFileName(dirName: string): string
  {
    "gall" + AsciiLower(dirName) + ".txt"
  }

  /** `gloss.writeGlossary(fout, alphaNum)`, collecting the lines written. */
  method WriteFile(gloss: Glossary, alphaNum: bool) returns (lines: seq<string>)
    ensures WrittenAs(lines, gloss.wordsInf, if alphaNum then Alphabetic else Occurrence)
  {
    var items;
    items, lines := gloss.WriteGlossary(alphaNum);
    FormatLinesShape(items);
    assert lines == FormatLines(items);
  }

  /** The two output loops of `main`: each page glossary by occurrence, then the total alphabetically. */
  method WriteOutputs(dirName: string, pageGlossSets: seq<(int, Glossary)>, totalGloss: Glossary)
    returns (pageFiles: seq<(string, seq<string>)>, allFile: (string, seq<string>))
    ensures |pageFiles| == |pageGlossSets|
    ensures forall i :: 0 <= i < |pageGlossSets| ==>
      pageFiles[i].0 == PageFileName(pageGlossSets[i].0)
      && WrittenAs(pageFiles[i].1, pageGlossSets[i].1.wordsInf, Occurrence)
    ensures allFile.0 == TotalFileName(dirName) && WrittenAs(allFile.1, totalGloss.wordsInf, Alphabetic)
  {
    pageFiles := [];
    for i := 0 to |pageGlossSets|
      invariant |pageFiles| == i
      invariant forall k :: 0 <= k < i ==>
        pageFiles[k].0 == PageFileName(pageGlossSets[k].0)
        && WrittenAs(pageFiles[k].1, pageGlossSets[k].1.wordsInf, Occurrence)
    {
      var lines := WriteFile(pageGlossSets[i].1, false);
      pageFiles := pageFiles + [(PageFileName(pageGlossSets[i].0), lines)];
    }
    var lines := WriteFile(totalGloss, true);
    allFile := (TotalFileName(dirName), lines);
  }

  /** The ignore list `main` starts from: `gignore.txt` read into an empty glossary, if the file exists. */
  function InitialIgnore(ignoreFile: Option<seq<string>>): Store
  {
    if ignoreFile.Some? then UpdateAll(map[], ParseLines(ignoreFile.value)) else map[]
  }

  /**
   `main` once the page directory is known: `dirName` is its base name,
   `ignoreFile` the lines of `gignore.txt` when it exists, and `pages` the
   numbered page files with their lines, in loop order. The result is every
   file written, by name.
   */
  method GlossaryRun(dirName: string, ignoreFile: Option<seq<string>>, pages: seq<(int, seq<string>)>)
    returns (pageFiles: seq<(string, seq<string>)>, allFile: (string, seq<string>))
    ensures var r := Run(State(InitialIgnore(ignoreFile), map[]), Raws(pages));
      && |r.1| == |pages| && |pageFiles| == |pages|
      && (forall i :: 0 <= i < |pages| ==>
            pageFiles[i].0 == PageFileName(pages[i].0) && WrittenAs(pageFiles[i].1, r.1[i], Occurrence))
      && allFile.0 == TotalFileName(dirName) && WrittenAs(allFile.1, r.0.total, Alphabetic)
  {
    var ignoreGloss := new Glossary();
    if ignoreFile.Some? {
      ignoreGloss.ReadGlossaryFile(ignoreFile.value);
    }
    var pageGlossSets, totalGloss := ProcessPages(pages, ignoreGloss);
    pageFiles, allFile := WriteOutputs(dirName, pageGlossSets, totalGloss);
  }

  // ---- what the written files hold ----------------------------------------

  /** Reading a written file back gives the glossary's words, each at its position with frequency 1. */
  lemma WrittenReadsBack(lines: seq<string>, m: Store, o: Order)
    requires WrittenAs(lines, m, o) && WritableKeys(m)
    ensures UpdateAll(map[], ParseLines(lines)) == ReadBackValue(m)
  {
    var items :| IsListing(items, m) && SortedBy(o, items) && lines == FormatLines(items);
    ReadWrittenGlossary(m, items);
  }

  lemma WritableSeen(raws: seq<Store>, w: string)
    requires forall i :: 0 <= i < |raws| ==> WritableKeys(raws[i])
    requires w in Seen(raws)
    ensures w != [] && AllMembers(NonSpace, w) && Capitalize(w) == w
  {
    var i := FirstSeen(raws, w);
  }

  /** Starting from an empty total, every page glossary and the total can be written and read back. */
  lemma RunWritable(ignore: Store, raws: seq<Store>)
    requires forall i :: 0 <= i < |raws| ==> WritableKeys(raws[i])
    ensures |Run(State(ignore, map[]), raws).1| == |raws|
    ensures WritableKeys(Run(State(ignore, map[]), raws).0.total)
    ensures forall i :: 0 <= i < |raws| ==> WritableKeys(Run(State(ignore, map[]), raws).1[i])
  {
    var st := State(ignore, map[]);
    RunPages(st, raws);
    RunTotalKeys(st, raws);
    forall w | w in Run(st, raws).0.total ensures w != [] && AllMembers(NonSpace, w) && Capitalize(w) == w {
      WritableSeen(raws, w);
    }
  }

  /** The page glossaries `getPageGloss` builds can be written and read back. */
  lemma RawsWritable(pages: seq<(int, seq<string>)>)
    ensures forall i :: 0 <= i < |pages| ==> WritableKeys(Raws(pages)[i])
  {
    forall i | 0 <= i < |pages| ensures WritableKeys(Raws(pages)[i]) {
      PageGlossWritable(pages[i].1, pages[i].0);
    }
  }
}
