/** Comparisons and stable sorting. */
module Sorting {
  datatype Order = Less | Equal | Greater

  function Flip(o: Order): Order {
    match o case Less => Greater case Equal => Equal case Greater => Less
  }

  /** Compare by the first, and where that is equal by the second. */
  function Then(first: Order, second: Order): Order {
    if first.Equal? then second else first
  }

  function CompareInts(a: int, b: int): Order {
    if a < b then Less else if a == b then Equal else Greater
  }

  /** What comparing three items pairwise must satisfy. */
  predicate Coherent(ab: Order, ba: Order, bc: Order, ac: Order) {
    && ba == Flip(ab)
    && (!ab.Greater? && !bc.Greater? ==> ac == if ab.Equal? then bc else ab)
  }

  type Comparison<!T> = (T, T) -> Order

  ghost predicate TotalPreorder<T(!new)>(compare: Comparison<T>) {
    forall a, b, c :: Coherent(compare(a, b), compare(b, a), compare(b, c), compare(a, c))
  }

  ghost predicate Sorted<T>(items: seq<T>, compare: Comparison<T>) {
    forall i, j | 0 <= i < j < |items| :: !compare(items[i], items[j]).Greater?
  }

  /** Inserts after everything not greater than the item. */
  function Insert<T>(r: T, items: seq<T>, compare: Comparison<T>): (s: seq<T>)
    ensures multiset(s) == multiset{r} + multiset(items)
  {
    if items == [] then [r]
    else
      var last := items[|items| - 1];
      assert items == items[..|items| - 1] + [last];
      if compare(r, last).Less? then Insert(r, items[..|items| - 1], compare) + [last] else items + [r]
  }

  /** A stable sort, as `sort_by` is. */
  function StableSort<T>(items: seq<T>, compare: Comparison<T>): (s: seq<T>)
    ensures multiset(s) == multiset(items)
  {
    if items == [] then []
    else
      assert items == items[..|items| - 1] + [items[|items| - 1]];
      Insert(items[|items| - 1], StableSort(items[..|items| - 1], compare), compare)
  }

  lemma {:induction false} InsertSorts<T(!new)>(r: T, items: seq<T>, compare: Comparison<T>)
    requires TotalPreorder(compare) && Sorted(items, compare)
    ensures Sorted(Insert(r, items, compare), compare)
    decreases |items|
  {
    if items != [] {
      var n := |items| - 1;
      var last, init := items[n], items[..n];
      if compare(r, last).Less? {
        InsertSorts(r, init, compare);
        forall x | x in Insert(r, init, compare) ensures !compare(x, last).Greater? {
          assert x in multiset(Insert(r, init, compare));
        }
      } else {
        forall i | 0 <= i < n + 1 ensures !compare(items[i], r).Greater? {
          assert Coherent(compare(items[i], last), compare(last, items[i]), compare(last, r), compare(items[i], r));
          assert Coherent(compare(r, last), compare(last, r), compare(last, r), compare(r, r));
        }
      }
    }
  }

  lemma {:induction false} StableSortSorts<T(!new)>(items: seq<T>, compare: Comparison<T>)
    requires TotalPreorder(compare)
    ensures Sorted(StableSort(items, compare), compare)
    decreases |items|
  {
    if items != [] {
      StableSortSorts(items[..|items| - 1], compare);
      InsertSorts(items[|items| - 1], StableSort(items[..|items| - 1], compare), compare);
    }
  }

  // ---------------------------------------------------------------- stability

  /** The items that compare equal to this one, in order. */
  function EqualTo<T>(x: T, items: seq<T>, compare: Comparison<T>): seq<T> {
    if items == [] then []
    else
      var n := |items| - 1;
      EqualTo(x, items[..n], compare) + (if compare(x, items[n]).Equal? then [items[n]] else [])
  }

  lemma EqualToOneMore<T>(x: T, items: seq<T>, last: T, compare: Comparison<T>)
    ensures EqualTo(x, items + [last], compare)
      == EqualTo(x, items, compare) + (if compare(x, last).Equal? then [last] else [])
  {
    assert (items + [last])[..|items|] == items;
  }

  lemma {:induction false} InsertIsStable<T(!new)>(x: T, r: T, items: seq<T>, compare: Comparison<T>)
    requires TotalPreorder(compare)
    ensures EqualTo(x, Insert(r, items, compare), compare) == EqualTo(x, items + [r], compare)
    decreases |items|
  {
    if items == [] {
      assert items + [r] == [r];
    } else {
      var init, last := items[..|items| - 1], items[|items| - 1];
      if compare(r, last).Less? {
        InsertIsStable(x, r, init, compare);
        Swapped(x, r, init, last, Insert(r, init, compare), compare);
        assert items == init + [last];
      }
    }
  }

  /** The order of two items that do not compare equal does not matter here. */
  lemma Swapped<T(!new)>(x: T, r: T, init: seq<T>, last: T, inserted: seq<T>, compare: Comparison<T>)
    requires TotalPreorder(compare) && compare(r, last).Less?
    requires EqualTo(x, inserted, compare) == EqualTo(x, init + [r], compare)
    ensures EqualTo(x, inserted + [last], compare) == EqualTo(x, (init + [last]) + [r], compare)
  {
    assert Coherent(compare(x, r), compare(r, x), compare(r, last), compare(x, last));
    EqualToOneMore(x, inserted, last, compare);
    EqualToOneMore(x, init, r, compare);
    EqualToOneMore(x, init, last, compare);
    EqualToOneMore(x, init + [last], r, compare);
  }

  /** Sorting leaves items that compare equal in the order they came in. */
  lemma {:induction false} StableSortIsStable<T(!new)>(x: T, items: seq<T>, compare: Comparison<T>)
    requires TotalPreorder(compare)
    ensures EqualTo(x, StableSort(items, compare), compare) == EqualTo(x, items, compare)
    decreases |items|
  {
    if items != [] {
      var init, last := items[..|items| - 1], items[|items| - 1];
      StableSortIsStable(x, init, compare);
      InsertIsStable(x, last, StableSort(init, compare), compare);
      EqualToOneMore(x, StableSort(init, compare), last, compare);
    }
  }
}
