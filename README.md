# Glossary builder, modelled in Dafny

`glossary.py` builds word glossaries for a book whose pages are text files.

Every page is read line by line. A line that starts with `.<digits>` and has an
unescaped `@` later on sets the current line number. Any other line advances
the line number by one. The words of each line are cleaned and recorded with
their page, their line and a count. Cleaning drops punctuation, control,
separator and number characters, then capitalises the word.

A Python object, `Glossary`, holds the dictionary `wordsInf` from a word to
`[page, line, freq]`. This dictionary is changed in place by:
- `updateWord`, which inserts a word or counts it up;
- `merge`, which folds another glossary in;
- `diff`, which pops the words another glossary shares.

The main loop takes each page in turn:
- it moves the page's ignored words into the ignore list;
- it adds the page's known words to the total;
- it copies the new words into the total and keeps only these new words as the page's own glossary.

Page glossaries are written in order of occurrence and the total
alphabetically, ignoring accents. Each file has one
`"%-20s p. %5s l. %5s"` line per word.

The project has one module per part of the program:

| file | module | contents |
|---|---|---|
| `unicode.dfy` | `Unicode` | character tables: general category, whitespace, case mapping, `capitalize`, `strip_accents` |
| `text.dfy` | `Text` | the string operations the program uses: `split()`, `re.findall("\d+")`, `" ".join`, `strip()`, `partition(" ")`, `%-20s`/`%5s`, `str`/`int` and string order |
| `entries.dfy` | `Entries` | the value level of `wordsInf`: reference definitions of `updateWord`, `merge` and `diff` on maps, and listings (what `iteritems()` yields) |
| `ordering.dfy` | `Ordering` | `spanishCmp`, `occurCmp` and a sort specified as a sorted permutation |
| `format.dfy` | `GlossaryFormat` | the line format written by `writeGlossary` and read by `readGlossaryFile`, with the round trip between them |
| `glossary.dfy` | `GlossaryStore` | the class `Glossary` with its methods, each proved against the reference definitions |
| `tokenizer.dfy` | `PageTokenizer` | `cleanUpWord`, `cleanUpLine`, `lineCommandPat`, the line counter and `getPageGloss` |
| `driver.dfy` | `Driver` | the page loop of `main` as a function on maps (`Run`) and as a method on `Glossary` objects, plus the output step |

## Model

| member | source | states |
|---|---|---|
| GlossaryStore.Glossary.constructor | glossary.py:155-156 | a new glossary is empty |
| GlossaryStore.Glossary.UpdateWord | glossary.py:158-167 | an absent word is inserted with the given page, line and frequency; a present word keeps its page and line and its frequency grows by `freq`; every other word is unchanged |
| GlossaryStore.Glossary.ImportEntry | glossary.py:159-163 | the tuple form `(word, [p, l, f])` has the effect of `updateWord(word, p, l, f)` |
| GlossaryStore.Glossary.Merge | glossary.py:169-171 | the receiver ends as `MergeInto(old self, old other)`: keys are the union, shared words sum frequencies and keep the receiver's position, new words copy `other`'s entry; `other` is unchanged (merging into itself doubles every frequency) |
| Entries.MergeIsUpdates | glossary.py:169-171 | feeding the items of `other` to `updateWord` in any order that lists each entry once yields `MergeInto(m, other)` |
| Entries.MergeContents | glossary.py:165-171 | pointwise content of a merge: union of keys, summed frequency and receiver's position for shared words, entries copied otherwise |
| Entries.MergeFreq | glossary.py:166 | frequencies add under merge |
| GlossaryStore.Glossary.Diff | glossary.py:176-181 | the result holds exactly the receiver's old entries for the words `other` has; the receiver keeps the rest; the two are disjoint and together are the old receiver; `other` is unchanged |
| Entries.DiffPartition | glossary.py:176-181 | the extracted part has keys `keys(self) ∩ ks`, is disjoint from the remainder, and remainder plus extracted is the original |
| Entries.ListItems | glossary.py:142 | the items produced are a listing of the map: each entry exactly once |
| Entries.UpdTwice | glossary.py:165-167 | two `updateWord` calls on one word act as one call with the summed frequency, and the first call's page and line win |
| Entries.UpdCommutes | glossary.py:165-167 | `updateWord` calls on different words commute, so the order in which `merge` and `diff` visit a dictionary does not matter |
| Entries.UpdateAllKeys | glossary.py:165-167 | repeated `updateWord` calls add exactly the words fed to them |
| Entries.UpdateAllFreq | glossary.py:165-166 | after repeated `updateWord` calls a word's frequency is its old one plus the sum of the frequencies fed for it |
| Entries.UpdateAllKeepsPosition | glossary.py:165 | a word already present never changes its page or line |
| Entries.UpdateAllFirstPosition | glossary.py:165 | a new word takes the page and line of the first item fed for it |
| Entries.UpdateAllAppend | glossary.py:125-138 | feeding `a + b` is feeding `a` then `b` |
| Entries.ListingPermuted | glossary.py:142-148 | a permutation of a listing is a listing of the same map |
| GlossaryStore.ReadFields | glossary.py:126-137 | one line is stripped and split at its first space; the capitalised word and the first three digit runs of the rest (defaults -1, -1, 1) are exactly `ParseLine(line)`, whose round trip with the writer is `ReadWrittenLine` |
| GlossaryStore.Glossary.ReadGlossaryFile | glossary.py:122-138 | the glossary ends as its old contents with every parsed line fed to `updateWord` in file order, so repeated words accumulate |
| GlossaryFormat.ReadLineWithoutNumbers | glossary.py:126-138 | a line with no digit after its first space reads as its capitalised word with page -1, line -1 and frequency 1 |
| GlossaryFormat.ReadBareWord | glossary.py:126-138 | a line holding one bare word, as in an ignore list, reads as that word capitalised with page -1, line -1 and frequency 1 |
| GlossaryFormat.ParseLinesSnoc | glossary.py:125-138 | parsing lines one more line at a time appends that line's item |
| GlossaryStore.Glossary.WriteGlossary | glossary.py:141-151 | the items are a listing of the glossary (one per entry), sorted by `spanishCmp` when `alphaNum` holds and by `occurCmp` otherwise, and line `i` is the formatted item `i` |
| GlossaryFormat.FormatLinesShape | glossary.py:150 | one output line per item, in item order |
| GlossaryFormat.ReadWrittenLine | glossary.py:126-150 | a written line of a non-empty, whitespace-free word reads back as the capitalised word with the magnitudes of page and line (a minus sign is not a digit) and frequency 1 (frequency is never written) |
| GlossaryFormat.ParseFormatted | glossary.py:126-150 | reading written lines gives the items back with positions as magnitudes and frequency 1 |
| GlossaryFormat.ReadWrittenGlossary | glossary.py:122-151 | writing a glossary with capitalised whitespace-free words and reading the file into an empty glossary gives the same words, each at the magnitudes of its page and line with frequency 1 |
| GlossaryFormat.ReadBackListing | glossary.py:126-150 | the lines read back from a written listing list the read-back map |
| Text.RunLength | glossary.py:127 | the run measured is the longest prefix of class characters |
| Text.RunsAreRuns | glossary.py:127 | every word of `split()` and every match of `\d+` is a non-empty string of its class |
| Text.TwoRuns | glossary.py:127 | a written line's fields after the word hold exactly two digit runs |
| Text.WordsOfJoin | glossary.py:271-284 | splitting a `" "`-joined list of whitespace-free words gives back its non-empty words |
| Text.StripNewline | glossary.py:126 | `strip()` of a written line removes only the newline |
| Text.ParseNatToString | glossary.py:136 | `int(str(n)) == n` for natural `n` |
| Text.StrCmpAntisymmetric | glossary.py:113-117 | string order is antisymmetric with values -1, 0, 1 |
| Text.StrCmpZero | glossary.py:113-117 | two strings compare 0 exactly when equal |
| Text.StrCmpTransitive | glossary.py:113-117 | string order is transitive, strictly so when one step is strict |
| Ordering.SpanishCmpProperties | glossary.py:110-117 | `spanishCmp(a, b) == -spanishCmp(b, a)`, with values -1, 0, 1, and 0 exactly when the accent-stripped words are equal |
| Ordering.OccurCmpOrder | glossary.py:98-106 | `occurCmp` is negative exactly when `[page, line, freq]` is lexicographically smaller, or equal with `spanishCmp` negative, and positive in the mirror case |
| Ordering.CmpTransitive | glossary.py:98-117 | both comparators are transitive, so sorting by them is well defined |
| Ordering.SortByCorrect | glossary.py:144-148 | the sort returns a permutation of its input ordered by the comparator |
| Ordering.InsertCorrect | glossary.py:144-148 | inserting into a sorted list keeps it sorted and adds exactly the new item |
| Unicode.CapitalizeShape | glossary.py:280 | `capitalize` keeps the length, upper-cases the first character and lower-cases the rest |
| Unicode.CapitalizeKeepsClass | glossary.py:278-280 | capitalising changes no character's whitespace status and does not move it into or out of the categories P, C, Z, N that `cleanUpWord` drops |
| Unicode.CapitalizeIdempotent | glossary.py:280 | capitalising twice is capitalising once |
| Unicode.SpaceIsDropped | glossary.py:278 | every whitespace character is in a category `cleanUpWord` drops |
| Unicode.StripAccents | glossary.py:69-70 | the modelled stripping maps each character to at most one character, so it never lengthens a word; this bound holds for the model's Latin-1 table only, not for Python's `strip_accents` |
| Unicode.StripAccentsNoMarks | glossary.py:69-70 | no character of an accent-stripped word is a non-spacing mark |
| Unicode.StripAccentsAscii | glossary.py:69-70 | a word of ASCII characters is its own accent-stripped form |
| PageTokenizer.CleanedWordShape | glossary.py:275-280 | a cleaned word has no P, C, Z or N character, no whitespace, and is already capitalised |
| PageTokenizer.LineTokensAreCleanedWords | glossary.py:270-286 | re-splitting a cleaned line gives exactly the non-empty cleaned words of the line: tokens that clean to nothing contribute nothing |
| PageTokenizer.TokenOrigin | glossary.py:270-286 | every recorded token is non-empty and is the cleaned form of one of the line's words |
| PageTokenizer.AnnotatedLine | glossary.py:87 | a line `.` digits, then text without a newline, then an `@` not preceded by `\` is annotated with the value of the digits |
| PageTokenizer.AnnotationMeansLayout | glossary.py:87 | conversely, an annotated line is `.`, a maximal digit run whose value is the annotation, text without a newline not ending in `\`, then `@` |
| PageTokenizer.EscapedAtNeverAnnotates | glossary.py:87 | a line whose every `@` is written `\@` is never annotated |
| PageTokenizer.UnmarkedLineNotAnnotated | glossary.py:87 | a line not starting with `.` and a digit is never annotated |
| PageTokenizer.LineNumberAt | glossary.py:259-268 | each line's number is its annotation's value, or the previous line's number plus one |
| PageTokenizer.FirstUnannotatedLineIsTwo | glossary.py:259-265 | with the counter starting at 1, an unannotated first line is line 2 |
| PageTokenizer.CountingContinues | glossary.py:264-268 | after any line, unannotated lines continue counting up by one from its number |
| PageTokenizer.CountingFromStart | glossary.py:259-265 | without annotations, line `i` (from 0) is numbered `i + 2` when the counter starts at 1 |
| PageTokenizer.AnnotationOverrideExample | glossary.py:259-268 | the lines `".5 @Hello world"`, `"Foo bar"` are numbered 5 and 6 |
| PageTokenizer.OccurrencesShape | glossary.py:270-272 | every occurrence is a token of some line, at that line's number, on the page, with frequency 1 |
| PageTokenizer.PageGlossContents | glossary.py:256-273 | the page glossary's words are exactly the recorded tokens; each has the page number, the line of its first occurrence, and its number of occurrences as frequency |
| PageTokenizer.PageGlossKeys | glossary.py:270-280 | every word of a page glossary is non-empty, whitespace-free, capitalised, and the cleaned form of a word of one of the lines |
| PageTokenizer.RecordTokens | glossary.py:271-272 | feeding every token of one line to `updateWord` at `(pageN, lineN)` with frequency 1 leaves the glossary as those updates applied in token order |
| PageTokenizer.GetPageGloss | glossary.py:256-273 | the fresh glossary built line by line equals `PageGloss(lines, pageN)` |
| Driver.ProcessPage | glossary.py:237-242 | one iteration of the page loop: ignore list, total and remaining page glossary are those of `PageStep` |
| Driver.PageStepIgnore | glossary.py:238-239 | per page, the ignore list keeps its words and positions and gains the page's frequency of each of them |
| Driver.PageStepLeft | glossary.py:238-244 | the page keeps exactly its words outside the ignore list and the total |
| Driver.PageStepTotal | glossary.py:240-242 | per page, the total gains the non-ignored words; a known word keeps its position and adds the page frequency; a new word takes the page's entry |
| Driver.ProcessPages | glossary.py:233-244 | the loop over all pages leaves ignore list, total and the stored page glossaries as `Run` computes them |
| Driver.RunIgnore | glossary.py:233-244 | the ignore list's key set never changes; each of its words gains its frequency on every page and keeps its position |
| Driver.RunTotalKeys | glossary.py:233-244 | the total holds its initial words and every page word outside the ignore list |
| Driver.RunTotalFreq | glossary.py:233-244 | a word outside the ignore list ends with its initial total frequency plus its frequency summed over all pages |
| Driver.RunTotalKeepsPosition | glossary.py:240-242 | a word already in the total keeps its position |
| Driver.RunTotalFirstPosition | glossary.py:240-242 | a new word takes its position from the first page on which it appears |
| Driver.RunPages | glossary.py:237-244 | page glossary `i` holds exactly the words of page `i` outside the ignore list, the initial total and all earlier pages, with their page entries |
| Driver.PagesDisjoint | glossary.py:237-244 | of two stored page glossaries, neither shares a word with the other nor holds an ignored word |
| Driver.PagesCoverTotal | glossary.py:233-244 | starting from an empty total, a word is in the total exactly when it is in some stored page glossary, and the total shares no word with the ignore list |
| Driver.FirstSeen | glossary.py:233-244 | every word seen on some page has a first page on which it appears |
| Driver.WriteFile | glossary.py:141-151 | a written file is the formatted lines of a sorted listing of the glossary |
| Driver.WriteOutputs | glossary.py:246-252 | one file per page, named `gp<page>.txt` and written by occurrence, and the total in `gall<basename lowered>.txt` written alphabetically |
| Driver.GlossaryRun | glossary.py:222-252 | end to end: the ignore list read from `gignore.txt` if present, the pages processed in order, and every file written from `Run`'s results |
| Driver.WrittenReadsBack | glossary.py:122-151 | any written file reads back as the glossary's words with the magnitudes of their pages and lines and frequency 1 |
| Driver.RunWritable | glossary.py:233-252 | every stored page glossary and the total can be written and read back |
| Driver.RawsWritable | glossary.py:256-280 | every page glossary `getPageGloss` builds has capitalised whitespace-free words |
| Driver.AsciiLower | glossary.py:250 | Python 2 `str.lower()` changes exactly the characters `A`-`Z` |

## Left out

- Command-line parsing, the usage errors and the exception classes (glossary.py:89-95, 184-205) are not modelled: they are argument plumbing around the model.
- File discovery and the sort of page files by number (glossary.py:209-220) are not modelled, because they depend on `os.listdir`. `GlossaryRun` takes the numbered pages already in loop order. With no page file at all the source fails at `zip(*numberedPages)`; the model does not reproduce that crash.
- File I/O and encodings (`readFile`, `openFile`, the UTF-16 setting, opening and closing files) are not modelled. Files are sequences of lines: the ignore file is an `Option` of its lines, and each output file is returned with its name.
- The Unicode tables are concrete approximations, because every function needs a body. They follow Unicode 5.2, the version Python 2.7's `unicodedata` and `unicode` methods use. `Category` is exact for Basic Latin, the Latin-1 Supplement, the combining diacritical marks U+0300-U+036F, every whitespace character (including U+180E) and the punctuation U+2010-U+2027. `ToUpper` and `ToLower` are exact for Basic Latin and the Latin-1 Supplement, including `ÿ`/`Ÿ` and `µ`/`Μ`/`μ`. `BaseLetter` decomposes the precomposed Latin-1 letters. Every other character counts as a letter without case or decomposition. For example, U+2030-U+206F, the other Unicode blocks' punctuation, symbols and digits, and Greek, Cyrillic and other cased scripts are not in the tables.
- Unicode.StripAccents: models NFD followed by dropping category Mn only for the precomposed Latin-1 letters of the table, and neither it nor `StripAccentsNoMarks` states equality with NFD minus Mn. Its length bound `|r| <= |s|` is a property of that table, not of Python's `strip_accents`. The real function can lengthen a word: NFD splits a Hangul syllable such as U+D55C into three conjoining jamo of category Lo. It splits Indic two-part vowel signs such as U+0B4B into two characters of category Mc. Neither kind of result is dropped.
- Positions are integers. `readGlossaryFile` stores page and line as the digit strings it found; the model stores their `int()` value. They differ only in leading zeros, and the ignore list, the only glossary read from a file, is never written or compared on positions.
- Ordering.SortByCorrect: Python's concrete sort algorithm and dictionary iteration order are left out. The sort is specified as a permutation sorted by the comparator, and no order is claimed for items that compare equal.
- GlossaryStore.Glossary.WriteGlossary: the optional `cmp` argument is not modelled, because `main` never passes one.
- GlossaryStore.Glossary.Diff: requires `other != this`. With a non-empty glossary `g`, `g.diff(g)` pops from the dictionary it is iterating over, and Python raises `RuntimeError`.
- `Glossary.contains` (glossary.py:173-174) is not modelled: it refers to an undefined name, raises `NameError` and is never called.
- Line numbering follows the code: the counter starts at 1 and is incremented before it is used, so the first unannotated line of a page is line 2 (`FirstUnannotatedLineIsTwo`).
