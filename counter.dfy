/** `collections.Counter(xs).most_common(k)`: the `k` most frequent values with
    their counts, most frequent first. A `Counter` remembers the order in which
    values first appeared, and `most_common` sorts stably by count, so values
    with equal counts come out in the order of their first appearance. */
module Counter {

  /** No value occurs twice. */
  predicate NoDup<T(==)>(xs: seq<T>)
  {
    forall i, j :: 0 <= i < j < |xs| ==> xs[i] != xs[j]
  }

  /** The position where `x` first appears in `xs`. */
  function FirstIndex(xs: seq<string>, x: string): (k: nat)
    requires x in xs
    ensures k < |xs| && xs[k] == x
    ensures forall j :: 0 <= j < k ==> xs[j] != x
  {
    if xs[0] == x then 0 else 1 + FirstIndex(xs[1..], x)
  }

  /** The values of `xs`, each once, in the order they first appear: the keys
      of the `Counter`. */
  function Distinct(xs: seq<string>): (d: seq<string>)
    ensures NoDup(d)
    ensures forall x :: x in d <==> x in xs
  {
    if xs == [] then []
    else
      var front := xs[..|xs| - 1];
      var rest := Distinct(front);
      assert forall x :: x in xs <==> x in front || x == xs[|xs| - 1];
      if xs[|xs| - 1] in front then rest else rest + [xs[|xs| - 1]]
  }

  /** One `Counter` item: how often its value occurs, and the position where
      the value first appears, which also names it (the value is `xs[first]`). */
  datatype Entry = Entry(count: nat, first: nat)

  /** `a` comes before `b` in `most_common`: a higher count, or the same count
      and an earlier first appearance. */
  predicate Outranks(a: Entry, b: Entry)
  {
    a.count > b.count || (a.count == b.count && a.first < b.first)
  }

  /** Entries whose first positions differ are always ordered one way or the other. */
  lemma OutranksTotal(a: Entry, b: Entry)
    requires a.first != b.first
    ensures Outranks(a, b) || Outranks(b, a)
  {
  }

  /** The `Counter` items of `xs`, in the order their values first appear. */
  function Entries(xs: seq<string>): seq<Entry>
  {
    var d := Distinct(xs);
    seq(|d|, i requires 0 <= i < |d| => Entry(multiset(xs)[d[i]], FirstIndex(xs, d[i])))
  }

  /** An item names a position of `xs` where its value appears first, and
      counts that value. */
  lemma EntryOf(xs: seq<string>, e: Entry)
    requires e in Entries(xs)
    ensures e.first < |xs| && e.first == FirstIndex(xs, xs[e.first])
    ensures e.count == multiset(xs)[xs[e.first]]
  {
    var p :| 0 <= p < |Entries(xs)| && Entries(xs)[p] == e;
  }

  /** The item of a value of `xs`. */
  lemma EntryFor(xs: seq<string>, x: string) returns (e: Entry)
    requires x in xs
    ensures e in Entries(xs) && e.first == FirstIndex(xs, x)
  {
    var p :| 0 <= p < |Distinct(xs)| && Distinct(xs)[p] == x;
    e := Entries(xs)[p];
  }

  /** Different items name different positions. */
  lemma EntriesDiffer(xs: seq<string>, e: Entry, f: Entry)
    requires e in Entries(xs) && f in Entries(xs) && e != f
    ensures e.first != f.first
  {
    EntryOf(xs, e);
    EntryOf(xs, f);
  }

  /** The `Counter` items are all different. */
  lemma EntriesNoDup(xs: seq<string>)
    ensures NoDup(Entries(xs))
  {
    var es := Entries(xs);
    forall i, j | 0 <= i < j < |es|
      ensures es[i] != es[j]
    {
      assert Distinct(xs)[i] != Distinct(xs)[j];
    }
  }

  /** The position of an entry no other entry outranks; the earliest one on a tie. */
  function BestIndex(es: seq<Entry>): (b: nat)
    requires es != []
    ensures b < |es|
    ensures forall j :: 0 <= j < |es| ==> !Outranks(es[j], es[b])
  {
    if |es| == 1 then 0
    else
      var b := BestIndex(es[..|es| - 1]);
      assert forall j :: 0 <= j < |es| - 1 ==> es[..|es| - 1][j] == es[j];
      if Outranks(es[|es| - 1], es[b]) then |es| - 1 else b
  }

  /** `es` without its entry at `b`. */
  function Without(es: seq<Entry>, b: nat): (r: seq<Entry>)
    requires b < |es|
    ensures |r| == |es| - 1
  {
    es[..b] + es[b + 1..]
  }

  /** Removing one entry keeps every other entry, and removes that entry
      when the list has no repeats. */
  lemma WithoutMembers(es: seq<Entry>, b: nat)
    requires b < |es|
    ensures forall e :: e in Without(es, b) ==> e in es
    ensures forall e :: e in es && e != es[b] ==> e in Without(es, b)
    ensures NoDup(es) ==> NoDup(Without(es, b)) && es[b] !in Without(es, b)
  {
    var r := Without(es, b);
    forall e | e in es && e != es[b]
      ensures e in r
    {
      var p :| 0 <= p < |es| && es[p] == e;
      if p < b { assert r[p] == e; } else { assert r[p - 1] == e; }
    }
    forall e | e in r
      ensures e in es
    {
      var p :| 0 <= p < |r| && r[p] == e;
      if p < b { assert es[p] == e; } else { assert es[p + 1] == e; }
    }
  }

  /** The first `k` entries of `es` in `most_common` order: the best entry,
      then the best `k - 1` of the others. */
  function TopK(es: seq<Entry>, k: nat): (r: seq<Entry>)
    ensures |r| == if k < |es| then k else |es|
    decreases k
  {
    if k == 0 || es == [] then []
    else
      var b := BestIndex(es);
      [es[b]] + TopK(Without(es, b), k - 1)
  }

  /** `TopK` chooses among the entries it is given. */
  lemma {:induction false} TopKChoosesFrom(es: seq<Entry>, k: nat, i: nat)
    requires i < |TopK(es, k)|
    ensures TopK(es, k)[i] in es
    decreases k
  {
    var b := BestIndex(es);
    var rest := Without(es, b);
    assert TopK(es, k) == [es[b]] + TopK(rest, k - 1);
    if i > 0 {
      TopKChoosesFrom(rest, k - 1, i - 1);
      WithoutMembers(es, b);
    }
  }

  /** Every entry `TopK` chooses is one it was given. */
  lemma TopKChoosesAll(es: seq<Entry>, k: nat)
    ensures forall i :: 0 <= i < |TopK(es, k)| ==> TopK(es, k)[i] in es
  {
    forall i | 0 <= i < |TopK(es, k)|
      ensures TopK(es, k)[i] in es
    {
      TopKChoosesFrom(es, k, i);
    }
  }

  /** No entry of `r` is outranked by one after it. */
  predicate Ranked(r: seq<Entry>)
  {
    forall i, j :: 0 <= i < j < |r| ==> !Outranks(r[j], r[i])
  }

  /** `e` outranks none of the entries of `r`. */
  predicate OutranksNone(e: Entry, r: seq<Entry>)
  {
    forall i :: 0 <= i < |r| ==> !Outranks(e, r[i])
  }

  lemma RankedCons(e: Entry, tail: seq<Entry>)
    requires Ranked(tail) && OutranksNoneOf(tail, e)
    ensures Ranked([e] + tail)
  {
    var r := [e] + tail;
    forall i, j | 0 <= i < j < |r|
      ensures !Outranks(r[j], r[i])
    {
      assert r[j] == tail[j - 1];
      if i > 0 {
        assert r[i] == tail[i - 1];
      }
    }
  }

  /** No entry of `r` outranks `e`. */
  predicate OutranksNoneOf(r: seq<Entry>, e: Entry)
  {
    forall j :: 0 <= j < |r| ==> !Outranks(r[j], e)
  }

  lemma OutranksNoneCons(e: Entry, x: Entry, tail: seq<Entry>)
    requires OutranksNone(e, tail) && !Outranks(e, x)
    ensures OutranksNone(e, [x] + tail)
  {
    var r := [x] + tail;
    forall i | 0 <= i < |r|
      ensures !Outranks(e, r[i])
    {
      if i > 0 {
        assert r[i] == tail[i - 1];
      }
    }
  }

  lemma NoDupCons(e: Entry, tail: seq<Entry>)
    requires NoDup(tail) && e !in tail
    ensures NoDup([e] + tail)
  {
    var r := [e] + tail;
    forall i, j | 0 <= i < j < |r|
      ensures r[i] != r[j]
    {
      assert r[j] == tail[j - 1];
      if i > 0 {
        assert r[i] == tail[i - 1];
      }
    }
  }

  /** The entry `BestIndex` picks is outranked by no other entry. */
  lemma BestOutranked(es: seq<Entry>, b: nat, tail: seq<Entry>)
    requires es != [] && b == BestIndex(es)
    requires forall i :: 0 <= i < |tail| ==> tail[i] in es
    ensures OutranksNoneOf(tail, es[b])
  {
    forall j | 0 <= j < |tail|
      ensures !Outranks(tail[j], es[b])
    {
      var p :| 0 <= p < |es| && es[p] == tail[j];
    }
  }

  /** No chosen entry is outranked by one chosen after it. */
  lemma {:induction false} TopKSorted(es: seq<Entry>, k: nat)
    ensures Ranked(TopK(es, k))
    decreases k
  {
    if k > 0 && es != [] {
      var b := BestIndex(es);
      var rest := Without(es, b);
      var tail := TopK(rest, k - 1);
      TopKSorted(rest, k - 1);
      TopKChoosesAll(rest, k - 1);
      WithoutMembers(es, b);
      assert TopK(es, k) == [es[b]] + tail;
      BestOutranked(es, b, tail);
      RankedCons(es[b], tail);
    }
  }

  /** From a list without repeats, `TopK` chooses no entry twice. */
  lemma {:induction false} TopKNoDup(es: seq<Entry>, k: nat)
    requires NoDup(es)
    ensures NoDup(TopK(es, k))
    decreases k
  {
    if k > 0 && es != [] {
      var b := BestIndex(es);
      var rest := Without(es, b);
      WithoutMembers(es, b);
      TopKNoDup(rest, k - 1);
      TopKChoosesAll(rest, k - 1);
      var tail := TopK(rest, k - 1);
      assert TopK(es, k) == [es[b]] + tail;
      NoDupCons(es[b], tail);
    }
  }

  /** An entry left out is outranked by none of the chosen ones... */
  lemma {:induction false} TopKComplete(es: seq<Entry>, k: nat, e: Entry)
    requires NoDup(es) && e in es && e !in TopK(es, k)
    ensures OutranksNone(e, TopK(es, k))
    decreases k
  {
    if k > 0 && es != [] {
      var b := BestIndex(es);
      var rest := Without(es, b);
      WithoutMembers(es, b);
      var tail := TopK(rest, k - 1);
      assert TopK(es, k) == [es[b]] + tail;
      TopKComplete(rest, k - 1, e);
      OutranksNoneCons(e, es[b], tail);
    }
  }

  /** ...and when `k` covers the whole list, nothing is left out. */
  lemma {:induction false} TopKAll(es: seq<Entry>, k: nat, e: Entry)
    requires |es| <= k && e in es
    ensures e in TopK(es, k)
    decreases k
  {
    var b := BestIndex(es);
    var rest := Without(es, b);
    WithoutMembers(es, b);
    var tail := TopK(rest, k - 1);
    assert TopK(es, k) == [es[b]] + tail;
    if e != es[b] {
      TopKAll(rest, k - 1, e);
    }
  }

  /** `Counter(xs).most_common(k)` as (value, count) pairs. */
  function MostCommon(xs: seq<string>, k: nat): (r: seq<(string, nat)>)
    ensures |r| == |TopK(Entries(xs), k)|
    ensures forall i :: 0 <= i < |r| ==> r[i].0 in xs
  {
    var top := TopK(Entries(xs), k);
    assert forall i :: 0 <= i < |top| ==> top[i].first < |xs| by {
      forall i | 0 <= i < |top|
        ensures top[i].first < |xs|
      {
        TopKChoosesFrom(Entries(xs), k, i);
        EntryOf(xs, top[i]);
      }
    }
    seq(|top|, i requires 0 <= i < |top| => (xs[top[i].first], top[i].count))
  }

  /** Each pair is a value of `xs` with its count, and no value is listed twice. */
  lemma MostCommonItems(xs: seq<string>, k: nat)
    ensures forall i :: 0 <= i < |MostCommon(xs, k)| ==>
      MostCommon(xs, k)[i].0 in xs && MostCommon(xs, k)[i].1 == multiset(xs)[MostCommon(xs, k)[i].0]
    ensures forall i, j :: 0 <= i < j < |MostCommon(xs, k)| ==> MostCommon(xs, k)[i].0 != MostCommon(xs, k)[j].0
  {
    var es := Entries(xs);
    var top := TopK(es, k);
    var r := MostCommon(xs, k);
    TopKChoosesAll(es, k);
    EntriesNoDup(xs);
    TopKNoDup(es, k);
    forall i | 0 <= i < |top|
      ensures r[i].0 in xs && r[i].1 == multiset(xs)[r[i].0]
    {
      EntryOf(xs, top[i]);
    }
    forall i, j | 0 <= i < j < |top|
      ensures r[i].0 != r[j].0
    {
      EntriesDiffer(xs, top[i], top[j]);
      EntryOf(xs, top[i]);
      EntryOf(xs, top[j]);
    }
  }

  /** Counts never increase along the list, and equal counts appear in the
      order their values first appeared in `xs`. */
  lemma MostCommonOrder(xs: seq<string>, k: nat)
    ensures forall i, j :: 0 <= i < j < |MostCommon(xs, k)| ==>
      || MostCommon(xs, k)[i].1 > MostCommon(xs, k)[j].1
      || (&& MostCommon(xs, k)[i].1 == MostCommon(xs, k)[j].1
          && FirstIndex(xs, MostCommon(xs, k)[i].0) < FirstIndex(xs, MostCommon(xs, k)[j].0))
  {
    var es := Entries(xs);
    var top := TopK(es, k);
    var r := MostCommon(xs, k);
    TopKChoosesAll(es, k);
    EntriesNoDup(xs);
    TopKNoDup(es, k);
    TopKSorted(es, k);
    forall i, j | 0 <= i < j < |r|
      ensures Outranks(top[i], top[j])
    {
      EntriesDiffer(xs, top[i], top[j]);
      EntryOf(xs, top[i]);
      EntryOf(xs, top[j]);
      OutranksTotal(top[i], top[j]);
    }
  }

  /** A value of `xs` that was left out ranks below every value kept: it
      occurs less often, or as often but first appears later. */
  lemma MostCommonLeftOut(xs: seq<string>, k: nat, x: string)
    requires x in xs
    requires forall i :: 0 <= i < |MostCommon(xs, k)| ==> MostCommon(xs, k)[i].0 != x
    ensures forall i :: 0 <= i < |MostCommon(xs, k)| ==>
      || multiset(xs)[x] < MostCommon(xs, k)[i].1
      || (multiset(xs)[x] == MostCommon(xs, k)[i].1 && FirstIndex(xs, MostCommon(xs, k)[i].0) < FirstIndex(xs, x))
  {
    var es := Entries(xs);
    var top := TopK(es, k);
    var r := MostCommon(xs, k);
    TopKChoosesAll(es, k);
    EntriesNoDup(xs);
    var e := EntryFor(xs, x);
    EntryOf(xs, e);
    forall i | 0 <= i < |top|
      ensures top[i].first != e.first
    {
      assert r[i].0 == xs[top[i].first];
    }
    assert e !in top;
    TopKComplete(es, k, e);
    forall i | 0 <= i < |top|
      ensures Outranks(top[i], e)
    {
      EntryOf(xs, top[i]);
      assert r[i].0 != x;
      OutranksTotal(top[i], e);
    }
  }

  /** With at most `k` distinct values, every value of `xs` is listed. */
  lemma MostCommonCovers(xs: seq<string>, k: nat, x: string)
    requires |Distinct(xs)| <= k && x in xs
    ensures exists i :: 0 <= i < |MostCommon(xs, k)| && MostCommon(xs, k)[i].0 == x
  {
    var es := Entries(xs);
    var top := TopK(es, k);
    var r := MostCommon(xs, k);
    var e := EntryFor(xs, x);
    assert |es| <= k;
    TopKAll(es, k, e);
    var i :| 0 <= i < |top| && top[i] == e;
    assert r[i] == (xs[top[i].first], top[i].count);
  }
}
