/**
 The glossary file format: one `"%-20s p. %5s l. %5s\n"` line per entry, as
 `writeGlossary` prints it, and the tolerant line reader of
 `readGlossaryFile`.
 */
module GlossaryFormat {
  import opened Unicode
  import opened Text
  import opened Entries

  /** One output line: capitalised word padded to 20, page and line right-aligned in 5; no frequency. */
  function FormatLine(it: Item): string
  {
    PadRight(Capitalize(it.0), 20) + " p. " + PadLeft(IntToString(it.1.page), 5)
    + " l. " + PadLeft(IntToString(it.1.line), 5) + "\n"
  }

  function FormatLines(items: seq<Item>): (lines: seq<string>)
  {
    if items == [] then [] else [FormatLine(items[0])] + FormatLines(items[1..])
  }

  lemma {:induction false} FormatLinesShape(items: seq<Item>)
    ensures |FormatLines(items)| == |items|
    ensures forall i :: 0 <= i < |items| ==> FormatLines(items)[i] == FormatLine(items[i])
  {
    if items != [] {
      FormatLinesShape(items[1..]);
    }
  }

  /** Number `i` of `nums` read with `int()`, or `default` when there are fewer numbers. */
  function NumberOr(nums: seq<string>, i: nat, default: int): int
    requires forall j :: 0 <= j < |nums| ==> AllMembers(Digit, nums[j])
  {
    if i < |nums| then ParseDecimal(nums[i]) else default
  }

  /**
   One line of a glossary file as `readGlossaryFile` reads it: the text before
   the first space is the word (capitalised), and the first three digit runs of
   the rest are page, line and frequency, defaulting to -1, -1 and 1.
   */
  function ParseLine(line: string): Item
  {
    var (word, rest) := Partition(Strip(line));
    var nums := DigitRuns(rest);
    RunsAreRuns(Digit, rest);
    (Capitalize(word), Entry(NumberOr(nums, 0, -1), NumberOr(nums, 1, -1), NumberOr(nums, 2, 1)))
  }

  function ParseLines(lines: seq<string>): (items: seq<Item>)
  {
    if lines == [] then [] else [ParseLine(lines[0])] + ParseLines(lines[1..])
  }

  lemma {:induction false} ParseLinesSnoc(lines: seq<string>, line: string)
    ensures ParseLines(lines + [line]) == ParseLines(lines) + [ParseLine(line)]
  {
    if lines != [] {
      assert (lines + [line])[1..] == lines[1..] + [line];
      ParseLinesSnoc(lines[1..], line);
    }
  }

  function Abs(n: int): nat
  {
    if n < 0 then -n else n
  }

  /** A `%5s` field holding an integer: non-digits, then the digits of its magnitude. */
  lemma PaddedNumber(n: int) returns (pre: string)
    ensures PadLeft(IntToString(n), 5) == pre + NatToString(Abs(n))
    ensures NoMembers(Digit, pre)
  {
    var sign := if n < 0 then "-" else "";
    var d := NatToString(Abs(n));
    var s := IntToString(n);
    assert s == sign + d;
    var k := if |s| < 5 then 5 - |s| else 0;
    var sp := Spaces(k);
    assert PadLeft(s, 5) == sp + s;
    pre := sp + sign;
    assert sp + s == pre + d;
    NoDigitsBeforeNumber(k, n < 0);
  }

  /** The padding and the sign of a `%5s` number hold no digit. */
  lemma NoDigitsBeforeNumber(k: nat, negative: bool)
    ensures NoMembers(Digit, Spaces(k) + (if negative then "-" else ""))
  {
    var pre := Spaces(k) + (if negative then "-" else "");
    forall i | 0 <= i < |pre| ensures !Member(Digit, pre[i]) {
      assert pre[i] == ' ' || pre[i] == '-';
    }
  }

  /** `strip()` then `partition(" ")` of a written line separates the word from the fields after it. */
  lemma SplitWrittenLine(cw: string, t: string)
    requires cw != [] && AllMembers(NonSpace, cw)
    requires t != [] && t[0] == ' ' && !IsSpace(t[|t| - 1])
    ensures Partition(Strip(cw + t + "\n")) == (cw, t[1..])
  {
    StripNewline(cw + t);
    FirstSpaceAt(cw, t);
    assert (cw + t)[..|cw|] == cw;
    assert (cw + t)[|cw| + 1..] == t[1..];
  }

  /** The fields after the word hold exactly two digit runs: page and line. */
  lemma FieldDigits(k1: nat, a: string, dp: string, b: string, dl: string)
    requires NoMembers(Digit, a) && NoMembers(Digit, b)
    requires dp != [] && AllMembers(Digit, dp) && dl != [] && AllMembers(Digit, dl)
    ensures DigitRuns((Spaces(k1) + " p. " + a + dp + " l. " + b + dl)[1..]) == [dp, dl]
  {
    var n1 := (Spaces(k1) + " p. " + a)[1..];
    var n2 := " l. " + b;
    assert (Spaces(k1) + " p. " + a + dp + " l. " + b + dl)[1..] == n1 + dp + n2 + dl;
    TwoRuns(Digit, n1, dp, n2, dl);
  }

  /** A line with no digit after its first space reads as its capitalised word with the defaults -1, -1 and 1. */
  lemma ReadLineWithoutNumbers(line: string)
    requires NoMembers(Digit, Partition(Strip(line)).1)
    ensures ParseLine(line) == (Capitalize(Partition(Strip(line)).0), Entry(-1, -1, 1))
  {
    var rest := Partition(Strip(line)).1;
    RunsSkip(Digit, rest, []);
    assert rest + [] == rest;
  }

  /** A line holding one bare word, the usual form of an ignore-list entry, reads as that word capitalised at -1, -1 with frequency 1. */
  lemma ReadBareWord(w: string)
    requires w != [] && AllMembers(NonSpace, w)
    ensures ParseLine(w + "\n") == (Capitalize(w), Entry(-1, -1, 1))
  {
    StripNewline(w);
    assert IsSpace(' ');
    assert FirstSpace(w) == |w|;
    ReadLineWithoutNumbers(w + "\n");
  }

  /** Re-brackets the pieces of a formatted line; kept apart so that `ReadWrittenLine` stays within its resource limit. */
  lemma Regroup(w: string, s1: string, s2: string, a: string, d1: string, s3: string, b: string, d2: string, s4: string)
    ensures (w + s1) + s2 + (a + d1) + s3 + (b + d2) + s4 == w + (s1 + s2 + a + d1 + s3 + b + d2) + s4
  {
  }

  /**
   Reading back a written line gives the capitalised word, the magnitudes of
   page and line (a minus sign is not part of a digit run) and the default
   frequency 1: the frequency is never written.
   */
  lemma ReadWrittenLine(it: Item)
    requires it.0 != [] && AllMembers(NonSpace, it.0)
    ensures ParseLine(FormatLine(it)) == (Capitalize(it.0), Entry(Abs(it.1.page), Abs(it.1.line), 1))
  {
    var cw := Capitalize(it.0);
    CapitalizeKeepsClass(it.0);
    CapitalizeShape(it.0);
    CapitalizeIdempotent(it.0);
    var p, l := it.1.page, it.1.line;
    var a := PaddedNumber(p);
    var b := PaddedNumber(l);
    var dp, dl := NatToString(Abs(p)), NatToString(Abs(l));
    var k1 := if |cw| < 20 then 20 - |cw| else 0;
    var t := Spaces(k1) + " p. " + a + dp + " l. " + b + dl;
    var line := FormatLine(it);
    assert line == cw + t + "\n" by {
      assert PadRight(cw, 20) == cw + Spaces(k1);
      assert line == (cw + Spaces(k1)) + " p. " + (a + dp) + " l. " + (b + dl) + "\n";
      Regroup(cw, Spaces(k1), " p. ", a, dp, " l. ", b, dl, "\n");
    }
    assert Partition(Strip(line)) == (cw, t[1..]) by {
      SplitWrittenLine(cw, t);
    }
    assert DigitRuns(t[1..]) == [dp, dl] by {
      FieldDigits(k1, a, dp, b, dl);
    }
    ParseNatToString(Abs(p));
    ParseNatToString(Abs(l));
  }

  /** Every key is a non-empty, whitespace-free, already capitalised word. */
  predicate WritableKeys(m: Store)
  {
    forall w :: w in m ==> w != [] && AllMembers(NonSpace, w) && Capitalize(w) == w
  }

  /** What reading back a written glossary yields: positions as magnitudes, frequency 1. */
  function ReadBackValue(m: Store): Store
  {
    map w | w in m :: Entry(Abs(m[w].page), Abs(m[w].line), 1)
  }

  /**
   Writing a glossary (in any order that lists each entry once) and reading the
   file into an empty glossary gives the same words, each with its position
   and frequency 1.
   */
  lemma ReadWrittenGlossary(m: Store, items: seq<Item>)
    requires WritableKeys(m) && IsListing(items, m)
    ensures UpdateAll(map[], ParseLines(FormatLines(items))) == ReadBackValue(m)
  {
    var parsed := ParseLines(FormatLines(items));
    ReadBackListing(m, items);
    MergeIsUpdates(map[], ReadBackValue(m), parsed);
    MergeIntoEmpty(ReadBackValue(m));
  }

  /** The items a written glossary reads back as, one per written item. */
  function ReadBackItems(items: seq<Item>): (r: seq<Item>)
    ensures |r| == |items|
    ensures forall i :: 0 <= i < |items| ==>
      r[i] == (items[i].0, Entry(Abs(items[i].1.page), Abs(items[i].1.line), 1))
  {
    if items == [] then []
    else [(items[0].0, Entry(Abs(items[0].1.page), Abs(items[0].1.line), 1))] + ReadBackItems(items[1..])
  }

  lemma {:induction false} ParseFormatted(items: seq<Item>)
    requires forall i :: 0 <= i < |items| ==>
      items[i].0 != [] && AllMembers(NonSpace, items[i].0) && Capitalize(items[i].0) == items[i].0
    ensures ParseLines(FormatLines(items)) == ReadBackItems(items)
  {
    if items != [] {
      ParseFormatted(items[1..]);
      ReadWrittenLine(items[0]);
    }
  }

  lemma ReadBackListing(m: Store, items: seq<Item>)
    requires WritableKeys(m) && IsListing(items, m)
    ensures IsListing(ParseLines(FormatLines(items)), ReadBackValue(m))
  {
    forall i | 0 <= i < |items|
      ensures items[i].0 != [] && AllMembers(NonSpace, items[i].0) && Capitalize(items[i].0) == items[i].0
    {
      assert items[i].0 in m;
    }
    ParseFormatted(items);
    var back := ReadBackItems(items);
    var r := ReadBackValue(m);
    assert r.Keys == m.Keys;
    forall i | 0 <= i < |items| ensures back[i] == (items[i].0, r[items[i].0]) {
      assert items[i].0 in m && m[items[i].0] == items[i].1;
    }
    ListingRelabelled(items, back, m, r);
  }

  /** Replacing each entry of a listing by another entry for the same word lists the new map. */
  lemma ListingRelabelled(items: seq<Item>, parsed: seq<Item>, m: Store, r: Store)
    requires IsListing(items, m) && r.Keys == m.Keys && |parsed| == |items|
    requires forall i :: 0 <= i < |items| ==> parsed[i] == (items[i].0, r[items[i].0])
    ensures IsListing(parsed, r)
  {
    assert WordsOf(parsed) == WordsOf(items) by {
      forall w | w in WordsOf(items) ensures w in WordsOf(parsed) {
        var i :| 0 <= i < |items| && items[i].0 == w;
        assert parsed[i].0 == w;
      }
    }
  }
}
