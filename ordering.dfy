/**
 The two comparators of the glossary writer (`spanishCmp`, `occurCmp`) and the
 sorting they drive. Python's `list.sort(cmp)` is specified only by its result:
 a permutation of its input, ordered by the comparator; `SortBy` is one
 function with that result.
 */
module Ordering {
  import opened Unicode
  import opened Text
  import opened Entries

  /** `spanishCmp`: code-point order of the accent-stripped words. */
  function SpanishCmp(a: Item, b: Item): int
  {
    StrCmp(StripAccents(a.0), StripAccents(b.0))
  }

  /** Python's comparison of the lists `[page, line, freq]`: -1, 0 or 1. */
  function EntryCmp(x: Entry, y: Entry): int
  {
    if x.page < y.page then -1 else if x.page > y.page then 1
    else if x.line < y.line then -1 else if x.line > y.line then 1
    else if x.freq < y.freq then -1 else if x.freq > y.freq then 1
    else 0
  }

  /** `occurCmp`: `[page, line, freq]` first, accent-stripped word on a tie. */
  function OccurCmp(a: Item, b: Item): int
  {
    var c := EntryCmp(a.1, b.1);
    if c != 0 then c else SpanishCmp(a, b)
  }

  /** The two orders `writeGlossary` chooses between with `alphaNum`. */
  datatype Order = Alphabetic | Occurrence

  function Cmp(o: Order, a: Item, b: Item): int
  {
    match o
    case Alphabetic => SpanishCmp(a, b)
    case Occurrence => OccurCmp(a, b)
  }

  /** `spanishCmp(a, b) == -spanishCmp(b, a)`, and it is 0 exactly when the stripped words agree. */
  lemma SpanishCmpProperties(a: Item, b: Item)
    ensures SpanishCmp(a, b) == -SpanishCmp(b, a)
    ensures SpanishCmp(a, b) in {-1, 0, 1}
    ensures SpanishCmp(a, b) == 0 <==> StripAccents(a.0) == StripAccents(b.0)
  {
    StrCmpAntisymmetric(StripAccents(a.0), StripAccents(b.0));
    StrCmpZero(StripAccents(a.0), StripAccents(b.0));
  }

  /** Lexicographic order on `[page, line, freq]`, stated independently of `EntryCmp`. */
  predicate LexLess(x: Entry, y: Entry)
  {
    x.page < y.page || (x.page == y.page && (x.line < y.line || (x.line == y.line && x.freq < y.freq)))
  }

  /** `occurCmp` puts the lexicographically smaller `[page, line, freq]` first and consults the words only on equal lists. */
  lemma OccurCmpOrder(a: Item, b: Item)
    ensures OccurCmp(a, b) < 0 <==> LexLess(a.1, b.1) || (a.1 == b.1 && SpanishCmp(a, b) < 0)
    ensures OccurCmp(a, b) > 0 <==> LexLess(b.1, a.1) || (a.1 == b.1 && SpanishCmp(a, b) > 0)
  {
  }

  lemma CmpAntisymmetric(o: Order, a: Item, b: Item)
    ensures Cmp(o, a, b) == -Cmp(o, b, a)
  {
    SpanishCmpProperties(a, b);
  }

  lemma CmpTransitive(o: Order, a: Item, b: Item, c: Item)
    requires Cmp(o, a, b) <= 0 && Cmp(o, b, c) <= 0
    ensures Cmp(o, a, c) <= 0
  {
    var sa, sb, sc := StripAccents(a.0), StripAccents(b.0), StripAccents(c.0);
    match o
    case Alphabetic =>
      StrCmpTransitive(sa, sb, sc);
    case Occurrence =>
      if EntryCmp(a.1, b.1) == 0 && EntryCmp(b.1, c.1) == 0 {
        StrCmpTransitive(sa, sb, sc);
      }
  }

  /** Every earlier item compares at most equal to every later one. */
  predicate SortedBy(o: Order, s: seq<Item>)
  {
    forall i, j :: 0 <= i < j < |s| ==> Cmp(o, s[i], s[j]) <= 0
  }

  function Insert(o: Order, x: Item, s: seq<Item>): seq<Item>
  {
    if s == [] then [x]
    else if Cmp(o, x, s[0]) <= 0 then [x] + s
    else [s[0]] + Insert(o, x, s[1..])
  }

  function SortBy(o: Order, s: seq<Item>): seq<Item>
  {
    if s == [] then [] else Insert(o, s[0], SortBy(o, s[1..]))
  }

  /** An item before every element of a sorted sequence can head it. */
  lemma SortedCons(o: Order, h: Item, t: seq<Item>)
    requires SortedBy(o, t)
    requires forall k :: 0 <= k < |t| ==> Cmp(o, h, t[k]) <= 0
    ensures SortedBy(o, [h] + t)
  {
    var r := [h] + t;
    forall i, j | 0 <= i < j < |r| ensures Cmp(o, r[i], r[j]) <= 0 {
      var c := Cmp(o, r[i], r[j]);
      assert r[j] == t[j - 1];
      if i == 0 {
        assert c == Cmp(o, h, t[j - 1]);
      } else {
        assert r[i] == t[i - 1];
        assert c == Cmp(o, t[i - 1], t[j - 1]);
      }
    }
  }

  /** An item before `x` and before all of `rest` can head any sorted arrangement of `rest` and `x`. */
  lemma SortedConsPermuted(o: Order, h: Item, x: Item, rest: seq<Item>, t: seq<Item>)
    requires SortedBy(o, t) && multiset(t) == multiset(rest) + multiset{x}
    requires Cmp(o, h, x) <= 0
    requires forall k :: 0 <= k < |rest| ==> Cmp(o, h, rest[k]) <= 0
    ensures SortedBy(o, [h] + t)
  {
    forall k | 0 <= k < |t| ensures Cmp(o, h, t[k]) <= 0 {
      var y := t[k];
      assert y in multiset(t);
      if y != x {
        assert y in rest;
        var j :| 0 <= j < |rest| && rest[j] == y;
      }
    }
    SortedCons(o, h, t);
  }

  /** An item that precedes the head of a sorted sequence goes in front. */
  lemma InsertFront(o: Order, x: Item, s: seq<Item>)
    requires SortedBy(o, s) && s != [] && Cmp(o, x, s[0]) <= 0
    ensures Insert(o, x, s) == [x] + s
    ensures SortedBy(o, [x] + s)
  {
    forall k | 0 <= k < |s| ensures Cmp(o, x, s[k]) <= 0 {
      if k > 0 {
        CmpTransitive(o, x, s[0], s[k]);
      }
    }
    SortedCons(o, x, s);
  }

  /** An item that follows the head goes into the rest: `t` is the rest with `x` inserted. */
  lemma InsertBehind(o: Order, x: Item, s: seq<Item>, t: seq<Item>)
    requires SortedBy(o, s) && s != [] && Cmp(o, x, s[0]) > 0
    requires multiset(t) == multiset(s[1..]) + multiset{x} && SortedBy(o, t)
    ensures multiset([s[0]] + t) == multiset(s) + multiset{x}
    ensures SortedBy(o, [s[0]] + t)
  {
    var rest := s[1..];
    CmpAntisymmetric(o, x, s[0]);
    forall k | 0 <= k < |rest| ensures Cmp(o, s[0], rest[k]) <= 0 {
      assert rest[k] == s[k + 1];
    }
    SortedConsPermuted(o, s[0], x, rest, t);
    assert s == [s[0]] + rest;
  }

  lemma {:induction false} InsertCorrect(o: Order, x: Item, s: seq<Item>)
    requires SortedBy(o, s)
    ensures multiset(Insert(o, x, s)) == multiset(s) + multiset{x}
    ensures SortedBy(o, Insert(o, x, s))
  {
    if s == [] {
    } else if Cmp(o, x, s[0]) <= 0 {
      InsertFront(o, x, s);
    } else {
      var rest := s[1..];
      assert SortedBy(o, rest);
      InsertCorrect(o, x, rest);
      var t := Insert(o, x, rest);
      assert Insert(o, x, s) == [s[0]] + t;
      InsertBehind(o, x, s, t);
    }
  }

  /** The sort returns a permutation of its input, ordered by the comparator. */
  lemma {:induction false} SortByCorrect(o: Order, s: seq<Item>)
    ensures multiset(SortBy(o, s)) == multiset(s)
    ensures SortedBy(o, SortBy(o, s))
  {
    if s != [] {
      SortByCorrect(o, s[1..]);
      InsertCorrect(o, s[0], SortBy(o, s[1..]));
      assert s == [s[0]] + s[1..];
    }
  }
}
