/**
 The Python string operations the glossary uses, over `string` values:
 `split()` and `re.findall("\d+", ...)` (both are maximal runs of one class of
 characters), `" ".join`, `strip()`, `partition(" ")`, the `%-20s` and `%5s`
 paddings, `str(int)` and `int(digits)`, and the code-point order of `<`.
 */
module Text {
  import opened Unicode

  /** The two kinds of maximal runs the source extracts. */
  datatype RunKind = NonSpace | Digit

  predicate Member(k: RunKind, c: char)
  {
    match k
    case NonSpace => !IsSpace(c)
    case Digit => IsAsciiDigit(c)
  }

  predicate AllMembers(k: RunKind, s: string)
  {
    forall i :: 0 <= i < |s| ==> Member(k, s[i])
  }

  predicate NoMembers(k: RunKind, s: string)
  {
    forall i :: 0 <= i < |s| ==> !Member(k, s[i])
  }

  /** Length of the run of `k` characters at the start of `s`. */
  function RunLength(k: RunKind, s: string): (n: nat)
    ensures n <= |s|
    ensures AllMembers(k, s[..n])
    ensures n == |s| || !Member(k, s[n])
  {
    if s == [] || !Member(k, s[0]) then 0 else 1 + RunLength(k, s[1..])
  }

  /** The maximal runs of `k` characters of `s`, left to right. */
  function Runs(k: RunKind, s: string): seq<string>
    decreases |s|
  {
    if s == [] then []
    else if !Member(k, s[0]) then Runs(k, s[1..])
    else
      var n := RunLength(k, s);
      [s[..n]] + Runs(k, s[n..])
  }

  /** Python's `s.split()`. */
  function Words(s: string): seq<string>
  {
    Runs(NonSpace, s)
  }

  /** `re.findall("\d+", s)`. */
  function DigitRuns(s: string): seq<string>
  {
    Runs(Digit, s)
  }

  /** Every run is a non-empty string of `k` characters. */
  lemma {:induction false} RunsAreRuns(k: RunKind, s: string)
    ensures forall i :: 0 <= i < |Runs(k, s)| ==> Runs(k, s)[i] != [] && AllMembers(k, Runs(k, s)[i])
    decreases |s|
  {
    if s == [] {
    } else if !Member(k, s[0]) {
      RunsAreRuns(k, s[1..]);
    } else {
      var n := RunLength(k, s);
      RunsAreRuns(k, s[n..]);
    }
  }

  lemma {:induction false} RunLengthOfRun(k: RunKind, x: string, y: string)
    requires AllMembers(k, x)
    requires y == [] || !Member(k, y[0])
    ensures RunLength(k, x + y) == |x|
    decreases |x|
  {
    if x != [] {
      assert (x + y)[1..] == x[1..] + y;
      RunLengthOfRun(k, x[1..], y);
    } else {
      assert x + y == y;
    }
  }

  /** Characters outside the class contribute no run. */
  lemma {:induction false} RunsSkip(k: RunKind, x: string, y: string)
    requires NoMembers(k, x)
    ensures Runs(k, x + y) == Runs(k, y)
    decreases |x|
  {
    if x == [] {
      assert x + y == y;
    } else {
      assert (x + y)[1..] == x[1..] + y;
      RunsSkip(k, x[1..], y);
    }
  }

  /** A complete run followed by a boundary is the next run. */
  lemma RunsTake(k: RunKind, x: string, y: string)
    requires x != [] && AllMembers(k, x)
    requires y == [] || !Member(k, y[0])
    ensures Runs(k, x + y) == [x] + Runs(k, y)
  {
    RunLengthOfRun(k, x, y);
    assert (x + y)[..|x|] == x;
    assert (x + y)[|x|..] == y;
  }

  /** A run of class `k` between two stretches free of it, then a final run: exactly two runs. */
  lemma TwoRuns(k: RunKind, a: string, x: string, b: string, y: string)
    requires NoMembers(k, a) && NoMembers(k, b) && b != []
    requires x != [] && AllMembers(k, x) && y != [] && AllMembers(k, y)
    ensures Runs(k, a + x + b + y) == [x, y]
  {
    assert a + x + b + y == a + (x + (b + (y + [])));
    RunsSkip(k, a, x + (b + (y + [])));
    RunsTake(k, x, b + (y + []));
    RunsSkip(k, b, y + []);
    RunsTake(k, y, []);
  }

  /** Python's `" ".join(ws)`. */
  function JoinSpaced(ws: seq<string>): string
  {
    if |ws| == 0 then "" else if |ws| == 1 then ws[0] else ws[0] + " " + JoinSpaced(ws[1..])
  }

  /** The non-empty strings of `ws`, in order. */
  function NonEmpty(ws: seq<string>): (r: seq<string>)
  {
    if ws == [] then [] else (if ws[0] == [] then [] else [ws[0]]) + NonEmpty(ws[1..])
  }

  /** Splitting a `" "`-joined sequence of whitespace-free words gives back its non-empty words. */
  lemma {:induction false} WordsOfJoin(ws: seq<string>)
    requires forall i :: 0 <= i < |ws| ==> AllMembers(NonSpace, ws[i])
    ensures Words(JoinSpaced(ws)) == NonEmpty(ws)
  {
    if |ws| == 1 {
      assert ws[1..] == [];
      if ws[0] != [] {
        RunsTake(NonSpace, ws[0], []);
        assert ws[0] + [] == ws[0];
      }
    } else if |ws| > 1 {
      WordsOfJoin(ws[1..]);
      WordsOfJoinStep(ws[0], ws[1..]);
      assert ws == [ws[0]] + ws[1..];
    }
  }

  lemma WordsOfJoinStep(w: string, ws: seq<string>)
    requires AllMembers(NonSpace, w) && ws != []
    requires Words(JoinSpaced(ws)) == NonEmpty(ws)
    ensures Words(w + " " + JoinSpaced(ws)) == (if w == [] then [] else [w]) + NonEmpty(ws)
  {
    var rest := JoinSpaced(ws);
    var spaced := " " + rest;
    assert !Member(NonSpace, spaced[0]);
    assert NoMembers(NonSpace, " ");
    RunsSkip(NonSpace, " ", rest);
    assert Words(spaced) == NonEmpty(ws);
    if w == [] {
      assert w + " " + rest == spaced;
    } else {
      RunsTake(NonSpace, w, spaced);
      assert w + " " + rest == w + spaced;
    }
  }

  function StripLeft(s: string): (r: string)
  {
    if s != [] && IsSpace(s[0]) then StripLeft(s[1..]) else s
  }

  function StripRight(s: string): (r: string)
  {
    if s != [] && IsSpace(s[|s| - 1]) then StripRight(s[..|s| - 1]) else s
  }

  /** Python's `s.strip()`: whitespace removed at both ends. */
  function Strip(s: string): string
  {
    StripRight(StripLeft(s))
  }

  /** Stripping a line with a trailing newline and no other surrounding whitespace removes just the newline. */
  lemma StripNewline(s: string)
    requires s != [] && !IsSpace(s[0]) && !IsSpace(s[|s| - 1])
    ensures Strip(s + "\n") == s
  {
    var t := s + "\n";
    assert StripLeft(t) == t;
    assert t[..|t| - 1] == s;
    assert IsSpace(t[|t| - 1]);
    assert StripRight(t) == StripRight(s);
  }

  /** Index of the first `' '` in `s`, or `|s|` when there is none. */
  function FirstSpace(s: string): (i: nat)
    ensures i <= |s|
    ensures forall j :: 0 <= j < i ==> s[j] != ' '
    ensures i < |s| ==> s[i] == ' '
  {
    if s == [] then 0 else if s[0] == ' ' then 0 else 1 + FirstSpace(s[1..])
  }

  lemma {:induction false} FirstSpaceAt(x: string, y: string)
    requires forall i :: 0 <= i < |x| ==> x[i] != ' '
    requires y != [] && y[0] == ' '
    ensures FirstSpace(x + y) == |x|
  {
    if x != [] {
      assert (x + y)[1..] == x[1..] + y;
      FirstSpaceAt(x[1..], y);
    } else {
      assert x + y == y;
    }
  }

  /** Python's `s.partition(" ")`, keeping the text before and after the separator. */
  function Partition(s: string): (string, string)
  {
    var i := FirstSpace(s);
    if i < |s| then (s[..i], s[i + 1..]) else (s, "")
  }

  function Spaces(n: nat): (r: string)
    ensures |r| == n
    ensures forall i :: 0 <= i < n ==> r[i] == ' '
  {
    if n == 0 then [] else [' '] + Spaces(n - 1)
  }

  /** `"%-w s" % s`: left-justified in a field of at least `w` characters. */
  function PadRight(s: string, w: nat): string
  {
    if |s| < w then s + Spaces(w - |s|) else s
  }

  /** `"%w s" % s`: right-justified in a field of at least `w` characters. */
  function PadLeft(s: string, w: nat): string
  {
    if |s| < w then Spaces(w - |s|) + s else s
  }

  function DigitChar(d: nat): (c: char)
    requires d < 10
    ensures IsAsciiDigit(c)
  {
    ('0' as int + d) as char
  }

  /** `str(n)` for a natural number. */
  function NatToString(n: nat): (s: string)
    ensures s != [] && AllMembers(Digit, s)
  {
    if n < 10 then [DigitChar(n)] else NatToString(n / 10) + [DigitChar(n % 10)]
  }

  /** `str(n)` for any integer. */
  function IntToString(n: int): string
  {
    if n < 0 then "-" + NatToString(-n) else NatToString(n)
  }

  /** `int(ds)` for a string of ASCII digits. */
  function ParseDecimal(ds: string): nat
    requires AllMembers(Digit, ds)
  {
    if ds == [] then 0
    else ParseDecimal(ds[..|ds| - 1]) * 10 + (ds[|ds| - 1] as int - '0' as int)
  }

  /** Printing a natural number and reading it back gives the same number. */
  lemma {:induction false} ParseNatToString(n: nat)
    ensures ParseDecimal(NatToString(n)) == n
  {
    var s := NatToString(n);
    if n >= 10 {
      ParseNatToString(n / 10);
      assert s[..|s| - 1] == NatToString(n / 10);
    }
  }

  /** Code-point order of two strings, as Python's `<` and `>` compare them: -1, 0 or 1. */
  function StrCmp(a: string, b: string): int
  {
    if a == [] && b == [] then 0
    else if a == [] then -1
    else if b == [] then 1
    else if a[0] < b[0] then -1
    else if a[0] > b[0] then 1
    else StrCmp(a[1..], b[1..])
  }

  lemma {:induction false} StrCmpAntisymmetric(a: string, b: string)
    ensures StrCmp(a, b) == -StrCmp(b, a)
    ensures StrCmp(a, b) in {-1, 0, 1}
  {
    if a != [] && b != [] && a[0] == b[0] {
      StrCmpAntisymmetric(a[1..], b[1..]);
    }
  }

  /** Two strings compare equal exactly when they are the same string. */
  lemma {:induction false} StrCmpZero(a: string, b: string)
    ensures StrCmp(a, b) == 0 <==> a == b
  {
    if a != [] && b != [] && a[0] == b[0] {
      StrCmpZero(a[1..], b[1..]);
      if a[1..] == b[1..] {
        assert a == [a[0]] + a[1..] && b == [b[0]] + b[1..];
      }
    }
  }

  lemma {:induction false} StrCmpTransitive(a: string, b: string, c: string)
    requires StrCmp(a, b) <= 0 && StrCmp(b, c) <= 0
    ensures StrCmp(a, c) <= 0
    ensures StrCmp(a, b) < 0 || StrCmp(b, c) < 0 ==> StrCmp(a, c) < 0
  {
    if a != [] && b != [] && c != [] && a[0] == b[0] == c[0] {
      StrCmpTransitive(a[1..], b[1..], c[1..]);
    }
  }
}
