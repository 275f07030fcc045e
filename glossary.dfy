/**
 The `Glossary` class: a dictionary `wordsInf` from word to `[page, line, freq]`
 that `updateWord`, `merge`, `diff` and `readGlossaryFile` change in place and
 `writeGlossary` prints. Each method is tied to the pure definitions of module
 `Entries`; iteration over a dictionary visits its keys in an unspecified
 order, which the loops below model by picking any remaining key.
 */
module GlossaryStore {
  import opened Unicode
  import opened Text
  import opened Entries
  import opened Ordering
  import opened GlossaryFormat

  /**
   The body of the `readGlossaryFile` loop for one line: strip, split at the
   first space, capitalise the word and read up to three digit runs of the
   rest as page, line and frequency (defaults -1, -1 and 1).
   */
  method ReadFields(line: string) returns (word: string, pageN: int, lineN: int, freq: int)
    ensures (word, Entry(pageN, lineN, freq)) == ParseLine(line)
  {
    var (w, rest) := Partition(Strip(line));
    var numbers := DigitRuns(rest);
    RunsAreRuns(Digit, rest);
    pageN, lineN, freq := -1, -1, 1;
    if |numbers| >= 1 {
      pageN := ParseDecimal(numbers[0]);
    }
    if |numbers| >= 2 {
      lineN := ParseDecimal(numbers[1]);
    }
    if |numbers| >= 3 {
      freq := ParseDecimal(numbers[2]);
    }
    word := Capitalize(w);
  }

  /** Reading one more line applies `updateWord` to its parsed item. */
  lemma ReadStep(m0: Store, lines: seq<string>, i: nat)
    requires i < |lines|
    ensures var it := ParseLine(lines[i]);
      UpdateAll(m0, ParseLines(lines[..i + 1])) == Upd(UpdateAll(m0, ParseLines(lines[..i])), it.0, it.1.page, it.1.line, it.1.freq)
  {
    var it := ParseLine(lines[i]);
    ParseLinesSnoc(lines[..i], lines[i]);
    assert lines[..i + 1] == lines[..i] + [lines[i]];
    UpdateAllAppend(m0, ParseLines(lines[..i]), [it]);
    assert [it][1..] == [];
  }

  class Glossary {
    var wordsInf: Store

    constructor ()
      ensures wordsInf == map[]
    {
      wordsInf := map[];
    }

    /** `updateWord(word, pageN, lineN, freq)`: insert a new word, or add to a known word's frequency. */
    method UpdateWord(word: string, page: int, line: int, freq: int)
      modifies this
      ensures wordsInf == Upd(old(wordsInf), word, page, line, freq)
      ensures wordsInf.Keys == old(wordsInf).Keys + {word}
      ensures word !in old(wordsInf) ==> wordsInf[word] == Entry(page, line, freq)
      ensures word in old(wordsInf) ==>
        wordsInf[word] == Entry(old(wordsInf)[word].page, old(wordsInf)[word].line, old(wordsInf)[word].freq + freq)
      ensures forall k :: k in old(wordsInf) && k != word ==> wordsInf[k] == old(wordsInf)[k]
    {
      var existing := if word in wordsInf then wordsInf[word] else Entry(page, line, 0);
      existing := existing.(freq := existing.freq + freq);
      wordsInf := wordsInf[word := existing];
    }

    /** `updateWord((word, [p, l, f]))`: the tuple form, same effect as `updateWord(word, p, l, int(f))`. */
    method ImportEntry(it: Item)
      modifies this
      ensures wordsInf == Upd(old(wordsInf), it.0, it.1.page, it.1.line, it.1.freq)
    {
      UpdateWord(it.0, it.1.page, it.1.line, it.1.freq);
    }

    /**
     `merge(other)`: every item of `other` is fed to `updateWord`. Words of both
     sum their frequencies and keep this glossary's position; new words copy
     `other`'s entry; `other` is not changed. Merging a glossary into itself
     doubles every frequency.
     */
    method Merge(other: Glossary)
      modifies this
      ensures wordsInf == MergeInto(old(wordsInf), old(other.wordsInf))
      ensures wordsInf.Keys == old(wordsInf).Keys + old(other.wordsInf).Keys
      ensures other != this ==> other.wordsInf == old(other.wordsInf)
    {
      var src := other.wordsInf;
      var remaining := src.Keys;
      ghost var m0 := wordsInf;
      ghost var done: seq<Item> := [];
      while remaining != {}
        invariant remaining <= src.Keys
        invariant WordsOf(done) == src.Keys - remaining
        invariant forall i :: 0 <= i < |done| ==> done[i].0 in src && src[done[i].0] == done[i].1
        invariant forall i, j :: 0 <= i < j < |done| ==> done[i].0 != done[j].0
        invariant wordsInf == UpdateAll(m0, done)
        invariant other != this ==> other.wordsInf == src
        decreases remaining
      {
        var w :| w in remaining;
        ImportEntry((w, src[w]));
        UpdateAllAppend(m0, done, [(w, src[w])]);
        WordsOfSnoc(done, (w, src[w]));
        done := done + [(w, src[w])];
        remaining := remaining - {w};
      }
      MergeIsUpdates(m0, src, done);
      MergeContents(m0, src);
    }

    /**
     `diff(other)`: pops from this glossary every word `other` also has and
     returns those entries in a new glossary. `other` is not changed.
     */
    method Diff(other: Glossary) returns (res: Glossary)
      requires other != this
      modifies this
      ensures fresh(res)
      ensures res.wordsInf == Restrict(old(wordsInf), other.wordsInf.Keys)
      ensures wordsInf == old(wordsInf) - other.wordsInf.Keys
      ensures other.wordsInf == old(other.wordsInf)
      ensures res.wordsInf.Keys == old(wordsInf).Keys * other.wordsInf.Keys
      ensures wordsInf.Keys !! res.wordsInf.Keys && wordsInf + res.wordsInf == old(wordsInf)
    {
      res := new Glossary();
      var keys := other.wordsInf.Keys;
      var remaining := keys;
      ghost var m0 := wordsInf;
      while remaining != {}
        invariant remaining <= keys
        invariant fresh(res)
        invariant wordsInf == m0 - (keys - remaining)
        invariant res.wordsInf == Restrict(m0, keys - remaining)
        invariant other.wordsInf == old(other.wordsInf)
        decreases remaining
      {
        var w :| w in remaining;
        if w in wordsInf {
          var popped := wordsInf[w];
          wordsInf := wordsInf - {w};
          res.ImportEntry((w, popped));
        }
        remaining := remaining - {w};
      }
      DiffPartition(m0, keys);
    }

    /**
     `readGlossaryFile`: each line is parsed as `ReadFields` does and fed to
     `updateWord`.
     */
    method ReadGlossaryFile(lines: seq<string>)
      modifies this
      ensures wordsInf == UpdateAll(old(wordsInf), ParseLines(lines))
    {
      ghost var m0 := wordsInf;
      for i := 0 to |lines|
        invariant wordsInf == UpdateAll(m0, ParseLines(lines[..i]))
      {
        var word, pageN, lineN, freq := ReadFields(lines[i]);
        ReadStep(m0, lines, i);
        UpdateWord(word, pageN, lineN, freq);
      }
      assert lines[..|lines|] == lines;
    }

    /**
     `writeGlossary(f, alphaNum)`: the entries, sorted by `spanishCmp` when
     `alphaNum` holds and by `occurCmp` otherwise, one formatted line each.
     */
    method WriteGlossary(alphaNum: bool) returns (items: seq<Item>, lines: seq<string>)
      ensures IsListing(items, wordsInf)
      ensures SortedBy(if alphaNum then Alphabetic else Occurrence, items)
      ensures |lines| == |items| == |wordsInf|
      ensures forall i :: 0 <= i < |items| ==> lines[i] == FormatLine(items[i])
    {
      var listed := ListItems(wordsInf);
      var order := if alphaNum then Alphabetic else Occurrence;
      items := SortBy(order, listed);
      SortByCorrect(order, listed);
      ListingPermuted(listed, items, wordsInf);
      ListingLength(items, wordsInf);
      FormatLinesShape(items);
      lines := FormatLines(items);
    }
  }
}
