/**
 The value level of a glossary: the `[page, line, freq]` record stored per word
 and the pure map functions that specify what `updateWord`, `merge` and `diff`
 do to the dictionary `wordsInf`.
 */
module Entries {

  /** The `[page, line, freq]` list stored per word. */
  datatype Entry = Entry(page: int, line: int, freq: int)

  /** The contents of `wordsInf`. */
  type Store = map<string, Entry>

  /** One `(word, [page, line, freq])` pair, as `iteritems()` yields it. */
  type Item = (string, Entry)

  /** Reference definition of `updateWord`: a new word takes the given position, a known word only counts up. */
  function Upd(m: Store, w: string, page: int, line: int, freq: int): Store
  {
    if w in m then m[w := Entry(m[w].page, m[w].line, m[w].freq + freq)]
    else m[w := Entry(page, line, freq)]
  }

  /** `updateWord` in its tuple form, applied to each item in turn. */
  function UpdateAll(m: Store, items: seq<Item>): Store
    decreases |items|
  {
    if items == [] then m
    else UpdateAll(Upd(m, items[0].0, items[0].1.page, items[0].1.line, items[0].1.freq), items[1..])
  }

  /** Frequency of `w` in `m`, 0 when absent. */
  function FreqIn(m: Store, w: string): int
  {
    if w in m then m[w].freq else 0
  }

  /** Sum of the frequencies that `items` carries for `w`. */
  function SumFreq(items: seq<Item>, w: string): int
  {
    if items == [] then 0 else (if items[0].0 == w then items[0].1.freq else 0) + SumFreq(items[1..], w)
  }

  /** The words `items` mentions. */
  function WordsOf(items: seq<Item>): set<string>
  {
    set i | 0 <= i < |items| :: items[i].0
  }

  /** Index of the first item for `w`. */
  function FirstIndex(items: seq<Item>, w: string): (i: nat)
    requires w in WordsOf(items)
    ensures i < |items| && items[i].0 == w
    ensures forall j :: 0 <= j < i ==> items[j].0 != w
  {
    if items[0].0 == w then 0
    else
      assert w in WordsOf(items[1..]) by {
        var j :| 0 <= j < |items| && items[j].0 == w;
        assert items[1..][j - 1].0 == w;
      }
      1 + FirstIndex(items[1..], w)
  }

  /** Reference definition of `merge`: shared words sum their frequencies and keep the receiver's position. */
  function MergeInto(m: Store, o: Store): Store
  {
    map k | k in m.Keys + o.Keys ::
      if k in m && k in o then Entry(m[k].page, m[k].line, m[k].freq + o[k].freq)
      else if k in m then m[k]
      else o[k]
  }

  /** The entries of `m` whose words are in `ks`. */
  function Restrict(m: Store, ks: set<string>): Store
  {
    map k | k in m && k in ks :: m[k]
  }

  /** `items` enumerates `m`: each entry exactly once, in some order. */
  predicate IsListing(items: seq<Item>, m: Store)
  {
    && WordsOf(items) == m.Keys
    && (forall i :: 0 <= i < |items| ==> items[i].0 in m && m[items[i].0] == items[i].1)
    && (forall i, j :: 0 <= i < j < |items| ==> items[i].0 != items[j].0)
  }

  lemma {:induction false} DistinctCount(a: seq<Item>, x: Item)
    requires forall i, j :: 0 <= i < j < |a| ==> a[i].0 != a[j].0
    ensures multiset(a)[x] <= 1
  {
    if a != [] {
      assert a == [a[0]] + a[1..];
      DistinctCount(a[1..], x);
      if a[0] == x {
        assert x !in a[1..] by {
          forall k | 0 <= k < |a[1..]| ensures a[1..][k] != x {
            assert a[1..][k] == a[k + 1];
          }
        }
      }
    }
  }

  /** A permutation of a listing is a listing of the same map. */
  lemma ListingPermuted(a: seq<Item>, b: seq<Item>, m: Store)
    requires IsListing(a, m) && multiset(a) == multiset(b)
    ensures IsListing(b, m)
  {
    forall i | 0 <= i < |b| ensures b[i].0 in m && m[b[i].0] == b[i].1 {
      assert b[i] in multiset(a);
    }
    forall w | w in m ensures w in WordsOf(b) {
      var i :| 0 <= i < |a| && a[i].0 == w;
      assert a[i] in multiset(b);
      var j :| 0 <= j < |b| && b[j] == a[i];
    }
    forall i, j | 0 <= i < j < |b| ensures b[i].0 != b[j].0 {
      if b[i].0 == b[j].0 {
        assert b[i] == b[j];
        TwiceCounted(b, i, j);
        DistinctCount(a, b[i]);
      }
    }
  }

  lemma TwiceCounted(b: seq<Item>, i: nat, j: nat)
    requires i < j < |b| && b[i] == b[j]
    ensures multiset(b)[b[i]] >= 2
  {
    var x := b[i];
    assert b == b[..j] + [b[j]] + b[j + 1..];
    assert b[..j][i] == x;
    assert x in b[..j];
  }

  lemma WordsOfSnoc(d: seq<Item>, x: Item)
    ensures WordsOf(d + [x]) == WordsOf(d) + {x.0}
  {
    var e := d + [x];
    forall v | v in WordsOf(e) ensures v in WordsOf(d) + {x.0} {
      var i :| 0 <= i < |e| && e[i].0 == v;
      if i < |d| { assert d[i].0 == v; }
    }
    assert e[|d|].0 == x.0;
    forall v | v in WordsOf(d) ensures v in WordsOf(e) {
      var i :| 0 <= i < |d| && d[i].0 == v;
      assert e[i].0 == v;
    }
  }

  /** Listing one more entry of `m`. */
  lemma ListingExtend(items: seq<Item>, m: Store, ks: set<string>, w: string)
    requires IsListing(items, Restrict(m, ks)) && w in m && w !in ks
    ensures IsListing(items + [(w, m[w])], Restrict(m, ks + {w}))
  {
    WordsOfSnoc(items, (w, m[w]));
    var e := items + [(w, m[w])];
    forall i, j | 0 <= i < j < |e| ensures e[i].0 != e[j].0 {
      if j == |items| {
        assert e[i].0 in Restrict(m, ks);
      }
    }
  }

  /**
   `list(m.iteritems())`: the entries of `m` in an order the dictionary
   chooses, which the model leaves unspecified.
   */
  method ListItems(m: Store) returns (items: seq<Item>)
    ensures IsListing(items, m)
    ensures |items| == |m|
  {
    items := [];
    var remaining := m.Keys;
    while remaining != {}
      invariant remaining <= m.Keys
      invariant IsListing(items, Restrict(m, m.Keys - remaining))
      decreases remaining
    {
      var w :| w in remaining;
      ListingExtend(items, m, m.Keys - remaining, w);
      assert m.Keys - remaining + {w} == m.Keys - (remaining - {w});
      items := items + [(w, m[w])];
      remaining := remaining - {w};
    }
    assert Restrict(m, m.Keys) == m;
    ListingLength(items, m);
  }

  // ---- updateWord -------------------------------------------------------

  /** Two updates of one word act as one update with the summed frequency, and the first position wins. */
  lemma UpdTwice(m: Store, w: string, p1: int, l1: int, f1: int, p2: int, l2: int, f2: int)
    ensures Upd(Upd(m, w, p1, l1, f1), w, p2, l2, f2) == Upd(m, w, p1, l1, f1 + f2)
  {
  }

  /** Updates of different words commute. */
  lemma UpdCommutes(m: Store, w1: string, e1: Entry, w2: string, e2: Entry)
    requires w1 != w2
    ensures Upd(Upd(m, w1, e1.page, e1.line, e1.freq), w2, e2.page, e2.line, e2.freq)
         == Upd(Upd(m, w2, e2.page, e2.line, e2.freq), w1, e1.page, e1.line, e1.freq)
  {
  }

  lemma {:induction false} UpdateAllAppend(m: Store, a: seq<Item>, b: seq<Item>)
    ensures UpdateAll(m, a + b) == UpdateAll(UpdateAll(m, a), b)
    decreases |a|
  {
    if a != [] {
      assert (a + b)[1..] == a[1..] + b;
      UpdateAllAppend(Upd(m, a[0].0, a[0].1.page, a[0].1.line, a[0].1.freq), a[1..], b);
    } else {
      assert a + b == b;
    }
  }

  /** The words after a sequence of updates are the old words plus every updated word. */
  lemma {:induction false} UpdateAllKeys(m: Store, items: seq<Item>)
    ensures UpdateAll(m, items).Keys == m.Keys + WordsOf(items)
    decreases |items|
  {
    if items != [] {
      var m1 := Upd(m, items[0].0, items[0].1.page, items[0].1.line, items[0].1.freq);
      UpdateAllKeys(m1, items[1..]);
      assert WordsOf(items) == {items[0].0} + WordsOf(items[1..]) by {
        forall w | w in WordsOf(items) ensures w in {items[0].0} + WordsOf(items[1..]) {
          var i :| 0 <= i < |items| && items[i].0 == w;
          if i > 0 { assert items[1..][i - 1].0 == w; }
        }
      }
    }
  }

  /** A word's final frequency is its old frequency plus everything the updates carried for it. */
  lemma {:induction false} UpdateAllFreq(m: Store, items: seq<Item>, w: string)
    ensures FreqIn(UpdateAll(m, items), w) == FreqIn(m, w) + SumFreq(items, w)
    decreases |items|
  {
    if items != [] {
      var m1 := Upd(m, items[0].0, items[0].1.page, items[0].1.line, items[0].1.freq);
      UpdateAllFreq(m1, items[1..], w);
    }
  }

  /** A word already present keeps its page and line through any sequence of updates. */
  lemma {:induction false} UpdateAllKeepsPosition(m: Store, items: seq<Item>, w: string)
    requires w in m
    ensures w in UpdateAll(m, items)
    ensures UpdateAll(m, items)[w].page == m[w].page && UpdateAll(m, items)[w].line == m[w].line
    decreases |items|
  {
    if items != [] {
      var m1 := Upd(m, items[0].0, items[0].1.page, items[0].1.line, items[0].1.freq);
      UpdateAllKeepsPosition(m1, items[1..], w);
    }
  }

  /** A new word takes the page and line of the first update that mentions it. */
  lemma {:induction false} UpdateAllFirstPosition(m: Store, items: seq<Item>, w: string)
    requires w !in m && w in WordsOf(items)
    ensures w in UpdateAll(m, items)
    ensures var e := items[FirstIndex(items, w)].1;
            UpdateAll(m, items)[w].page == e.page && UpdateAll(m, items)[w].line == e.line
    decreases |items|
  {
    var m1 := Upd(m, items[0].0, items[0].1.page, items[0].1.line, items[0].1.freq);
    if items[0].0 == w {
      UpdateAllKeepsPosition(m1, items[1..], w);
    } else {
      assert w in WordsOf(items[1..]) by {
        var j :| 0 <= j < |items| && items[j].0 == w;
        assert items[1..][j - 1].0 == w;
      }
      UpdateAllFirstPosition(m1, items[1..], w);
      assert FirstIndex(items, w) == 1 + FirstIndex(items[1..], w);
    }
  }

  // ---- merge ------------------------------------------------------------

  lemma MergeStep(m: Store, o: Store, k: string)
    requires k in o
    ensures MergeInto(Upd(m, k, o[k].page, o[k].line, o[k].freq), o - {k}) == MergeInto(m, o)
  {
    var lhs := MergeInto(Upd(m, k, o[k].page, o[k].line, o[k].freq), o - {k});
    assert lhs.Keys == MergeInto(m, o).Keys;
  }

  lemma ListingTail(items: seq<Item>, m: Store)
    requires items != [] && IsListing(items, m)
    ensures IsListing(items[1..], m - {items[0].0})
  {
    var t := items[1..];
    forall w | w in WordsOf(items) - {items[0].0} ensures w in WordsOf(t) {
      var i :| 0 <= i < |items| && items[i].0 == w;
      assert t[i - 1].0 == w;
    }
  }

  /** A listing has one item per entry. */
  lemma {:induction false} ListingLength(items: seq<Item>, m: Store)
    requires IsListing(items, m)
    ensures |items| == |m|
    decreases |items|
  {
    if items == [] {
      assert m.Keys == {};
    } else {
      ListingTail(items, m);
      ListingLength(items[1..], m - {items[0].0});
      assert (m - {items[0].0}).Keys == m.Keys - {items[0].0};
    }
  }

  /** Merging folds `updateWord` over the other glossary's items; the iteration order does not matter. */
  lemma {:induction false} MergeIsUpdates(m: Store, o: Store, items: seq<Item>)
    requires IsListing(items, o)
    ensures UpdateAll(m, items) == MergeInto(m, o)
    decreases |items|
  {
    if items == [] {
      assert o.Keys == {};
      assert MergeInto(m, o) == m;
    } else {
      var k := items[0].0;
      ListingTail(items, o);
      MergeIsUpdates(Upd(m, k, o[k].page, o[k].line, o[k].freq), o - {k}, items[1..]);
      MergeStep(m, o, k);
    }
  }

  /** What `merge` promises, stated pointwise. */
  lemma MergeContents(m: Store, o: Store)
    ensures MergeInto(m, o).Keys == m.Keys + o.Keys
    ensures forall k :: k in m && k in o ==>
      MergeInto(m, o)[k] == Entry(m[k].page, m[k].line, m[k].freq + o[k].freq)
    ensures forall k :: k in m && k !in o ==> MergeInto(m, o)[k] == m[k]
    ensures forall k :: k !in m && k in o ==> MergeInto(m, o)[k] == o[k]
  {
  }

  /** Frequencies add under merge. */
  lemma MergeFreq(m: Store, o: Store, w: string)
    ensures FreqIn(MergeInto(m, o), w) == FreqIn(m, w) + FreqIn(o, w)
  {
  }

  /** Merging into an empty glossary copies the other. */
  lemma MergeIntoEmpty(o: Store)
    ensures MergeInto(map[], o) == o
  {
  }

  // ---- diff -------------------------------------------------------------

  /** The extracted and the remaining entries are disjoint and together make up the original. */
  lemma DiffPartition(m: Store, ks: set<string>)
    ensures Restrict(m, ks).Keys == m.Keys * ks
    ensures (m - ks).Keys !! Restrict(m, ks).Keys
    ensures (m - ks) + Restrict(m, ks) == m
  {
  }
}
