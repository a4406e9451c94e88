/**
 * Item lists of a WinForms ComboBox as the form uses them: appending the
 * enumerated values that are missing (ObjectCollection.Contains / IndexOf, then
 * Add) and keeping only the items that are still enumerated.
 */
module ItemCollections {

  /** No value occurs twice. */
  predicate NoDuplicates<T(==,!new)>(s: seq<T>) {
    forall i, j :: 0 <= i < j < |s| ==> s[i] != s[j]
  }

  /** ObjectCollection.IndexOf: the first position of x, or -1 when x is not an item. */
  function IndexOf<T(==,!new)>(s: seq<T>, x: T): (i: int)
    ensures x in s ==> 0 <= i < |s| && s[i] == x && x !in s[..i]
    ensures x !in s ==> i == -1
  {
    if s == [] then -1
    else if s[0] == x then 0
    else
      var j := IndexOf(s[1..], x);
      if j < 0 then -1 else 1 + j
  }

  /**
   * A foreach over xs that adds each value the list does not yet contain. A value
   * repeated in xs is added once, at its first occurrence.
   */
  function AppendMissing<T(==,!new)>(items: seq<T>, xs: seq<T>): (r: seq<T>)
    ensures |items| <= |r| && r[..|items|] == items
    decreases |xs|
  {
    if xs == [] then items
    else AppendMissing(if xs[0] in items then items else items + [xs[0]], xs[1..])
  }

  /** After the foreach the list holds the old items and the enumerated values, and nothing else. */
  lemma {:induction false} AppendMissingMembers<T(!new)>(items: seq<T>, xs: seq<T>)
    ensures forall x :: x in AppendMissing(items, xs) <==> x in items || x in xs
    decreases |xs|
  {
    if xs != [] {
      var items' := if xs[0] in items then items else items + [xs[0]];
      AppendMissingMembers(items', xs[1..]);
      assert xs == [xs[0]] + xs[1..];
    }
  }

  /** The values AppendMissing adds, in the order it adds them. */
  function Added<T(==,!new)>(items: seq<T>, xs: seq<T>): (r: seq<T>)
    ensures AppendMissing(items, xs) == items + r
  {
    AppendMissing(items, xs)[|items|..]
  }

  /** The values added are exactly the enumerated values not already present. */
  lemma {:induction false} AddedMembers<T(!new)>(items: seq<T>, xs: seq<T>)
    ensures forall x :: x in Added(items, xs) <==> x in xs && x !in items
    decreases |xs|
  {
    if xs != [] {
      var h, t := xs[0], xs[1..];
      assert xs == [h] + t;
      if h in items {
        AddedMembers(items, t);
      } else {
        AddedMembers(items + [h], t);
        AddedHead(items, xs);
      }
    }
  }

  /** Helper: a head that is missing is the first value added. */
  lemma AddedHead<T(!new)>(items: seq<T>, xs: seq<T>)
    requires xs != [] && xs[0] !in items
    ensures Added(items, xs) == [xs[0]] + Added(items + [xs[0]], xs[1..])
  {
  }

  /** Each value is added at most once. */
  lemma {:induction false} AddedNoDuplicates<T(!new)>(items: seq<T>, xs: seq<T>)
    ensures NoDuplicates(Added(items, xs))
    decreases |xs|
  {
    if xs != [] {
      var h, t := xs[0], xs[1..];
      if h in items {
        AddedNoDuplicates(items, t);
      } else {
        var items' := items + [h];
        AddedNoDuplicates(items', t);
        AddedMembers(items', t);
        AddedHead(items, xs);
        NoDuplicatesConcat([h], Added(items', t));
      }
    }
  }

  /** The values of a occur in xs, ordered by the position of their first occurrence there. */
  predicate OrderedBy<T(==,!new)>(xs: seq<T>, a: seq<T>) {
    (forall k :: 0 <= k < |a| ==> a[k] in xs) &&
    forall i, j :: 0 <= i < j < |a| ==> IndexOf(xs, a[i]) < IndexOf(xs, a[j])
  }

  /** Helper: an order by the tail of xs is an order by xs, also with the head in front. */
  lemma OrderedByCons<T(!new)>(xs: seq<T>, a: seq<T>)
    requires xs != [] && xs[0] !in a && OrderedBy(xs[1..], a)
    ensures OrderedBy(xs, a) && OrderedBy(xs, [xs[0]] + a)
  {
  }

  /** The values are added in the order of their first occurrence in xs. */
  lemma {:induction false} AddedOrder<T(!new)>(items: seq<T>, xs: seq<T>)
    ensures OrderedBy(xs, Added(items, xs))
    decreases |xs|
  {
    if xs != [] {
      var h, t := xs[0], xs[1..];
      if h in items {
        assert Added(items, xs) == Added(items, t);
        AddedOrder(items, t);
        AddedMembers(items, t);
        OrderedByCons(xs, Added(items, t));
      } else {
        var items' := items + [h];
        AddedOrder(items', t);
        AddedMembers(items', t);
        AddedHead(items, xs);
        OrderedByCons(xs, Added(items', t));
      }
    }
  }

  /** Appending only missing values keeps a duplicate-free list duplicate-free. */
  lemma AppendMissingNoDuplicates<T(!new)>(items: seq<T>, xs: seq<T>)
    requires NoDuplicates(items)
    ensures NoDuplicates(AppendMissing(items, xs))
  {
    AddedNoDuplicates(items, xs);
    AddedMembers(items, xs);
    NoDuplicatesConcat(items, Added(items, xs));
  }

  /** Nothing is added when every enumerated value is already present. */
  lemma {:induction false} AppendMissingPresent<T(!new)>(items: seq<T>, xs: seq<T>)
    requires forall x :: x in xs ==> x in items
    ensures AppendMissing(items, xs) == items
    decreases |xs|
  {
    if xs != [] {
      assert xs[0] in items;
      AppendMissingPresent(items, xs[1..]);
    }
  }

  /**
   * The items that are also in keep, in their original order: what the backward
   * RemoveAt loop leaves of the list.
   */
  function KeepPresent<T(==,!new)>(items: seq<T>, keep: seq<T>): (r: seq<T>)
    ensures |r| <= |items|
  {
    if items == [] then []
    else (if items[0] in keep then [items[0]] else []) + KeepPresent(items[1..], keep)
  }

  /** What the filter keeps are exactly the items that are in keep. */
  lemma {:induction false} KeepPresentMembers<T(!new)>(items: seq<T>, keep: seq<T>)
    ensures forall x :: x in KeepPresent(items, keep) <==> x in items && x in keep
  {
    if items != [] {
      KeepPresentMembers(items[1..], keep);
      assert items == [items[0]] + items[1..];
    }
  }

  /** One step of a foreach over xs that adds each missing value. */
  lemma AppendMissingStep<T(!new)>(items: seq<T>, xs: seq<T>, k: nat)
    requires k < |xs|
    ensures AppendMissing(items, xs[k..])
      == AppendMissing(if xs[k] in items then items else items + [xs[k]], xs[k + 1..])
  {
  }

  /**
   * One step of a backward loop that removes, at index i, an item not in keep:
   * the part from i on is filtered, the part before i is untouched.
   */
  lemma RemoveStep<T(!new)>(merged: seq<T>, keep: seq<T>, i: nat, current: seq<T>)
    requires i < |merged|
    requires current == merged[..i + 1] + KeepPresent(merged[i + 1..], keep)
    ensures current[i] == merged[i]
    ensures (if current[i] in keep then current else current[..i] + current[i + 1..])
      == merged[..i] + KeepPresent(merged[i..], keep)
  {
  }

  /** Filtering a concatenation filters each part. */
  lemma {:induction false} KeepPresentAppend<T(!new)>(a: seq<T>, b: seq<T>, keep: seq<T>)
    ensures KeepPresent(a + b, keep) == KeepPresent(a, keep) + KeepPresent(b, keep)
  {
    if a != [] {
      assert (a + b)[1..] == a[1..] + b;
      KeepPresentAppend(a[1..], b, keep);
    } else {
      assert a + b == b;
    }
  }

  /** Filtering keeps everything when everything is to be kept. */
  lemma {:induction false} KeepPresentAll<T(!new)>(s: seq<T>, keep: seq<T>)
    requires forall x :: x in s ==> x in keep
    ensures KeepPresent(s, keep) == s
  {
    if s != [] {
      assert s == [s[0]] + s[1..];
      KeepPresentAll(s[1..], keep);
    }
  }

  /** Filtering against nothing leaves nothing. */
  lemma {:induction false} KeepPresentNone<T(!new)>(items: seq<T>)
    ensures KeepPresent(items, []) == []
  {
    if items != [] {
      KeepPresentNone(items[1..]);
    }
  }

  /** A kept value keeps all its occurrences; an unkept value keeps none. */
  lemma {:induction false} KeepPresentCount<T(!new)>(items: seq<T>, keep: seq<T>, x: T)
    ensures multiset(KeepPresent(items, keep))[x] == if x in keep then multiset(items)[x] else 0
  {
    if items != [] {
      KeepPresentCount(items[1..], keep, x);
      assert items == [items[0]] + items[1..];
      assert multiset(items) == multiset{items[0]} + multiset(items[1..]);
    }
  }

  /** Filtering never introduces a duplicate. */
  lemma {:induction false} KeepPresentNoDuplicates<T(!new)>(items: seq<T>, keep: seq<T>)
    requires NoDuplicates(items)
    ensures NoDuplicates(KeepPresent(items, keep))
  {
    if items != [] {
      var tail := items[1..];
      assert NoDuplicates(tail) by {
        forall i, j | 0 <= i < j < |tail| ensures tail[i] != tail[j] {
          assert tail[i] == items[i + 1] && tail[j] == items[j + 1];
        }
      }
      KeepPresentNoDuplicates(tail, keep);
      KeepPresentMembers(tail, keep);
      assert items[0] !in tail;
    }
  }

  /** Without duplicates, every value occurs at most once. */
  lemma {:induction false} NoDuplicatesCount<T(!new)>(s: seq<T>, x: T)
    requires NoDuplicates(s)
    ensures multiset(s)[x] == if x in s then 1 else 0
  {
    if s != [] {
      var tail := s[1..];
      assert NoDuplicates(tail) by {
        forall i, j | 0 <= i < j < |tail| ensures tail[i] != tail[j] {
          assert tail[i] == s[i + 1] && tail[j] == s[j + 1];
        }
      }
      NoDuplicatesCount(tail, x);
      assert s == [s[0]] + tail;
      assert multiset(s) == multiset{s[0]} + multiset(tail);
      assert s[0] !in tail;
    }
  }

  /** Joining two duplicate-free lists with no value in common gives a duplicate-free list. */
  lemma NoDuplicatesConcat<T(!new)>(a: seq<T>, b: seq<T>)
    requires NoDuplicates(a) && NoDuplicates(b)
    requires forall x :: x in a ==> x !in b
    ensures NoDuplicates(a + b)
  {
    var s := a + b;
    forall i, j | 0 <= i < j < |s| ensures s[i] != s[j] {
      if j < |a| {
        assert s[i] == a[i] && s[j] == a[j];
      } else if i >= |a| {
        assert s[i] == b[i - |a|] && s[j] == b[j - |a|];
      } else {
        assert s[i] == a[i] && a[i] in a && s[j] == b[j - |a|] && b[j - |a|] in b;
      }
    }
  }
}
