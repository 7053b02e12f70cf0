/** The ordering step `items.sort((a, b) => b.display.localeCompare(a.display))`:
    the resolved items in descending order of their labels. Locale collation
    is implementation-defined, so it is a parameter: `collate(x, y)` stands for
    `x.localeCompare(y) <= 0`, "x collates no later than y". */
module Sorting {
  import opened Entries

  /** What any consistent collation satisfies: every two strings compare, and
      comparison is transitive (distinct strings may compare equal). */
  ghost predicate TotalPreorder(collate: (string, string) -> bool)
  {
    && (forall x, y :: collate(x, y) || collate(y, x))
    && (forall x, y, z :: collate(x, y) && collate(y, z) ==> collate(x, z))
  }

  /** Labels are in non-increasing collation order. */
  predicate SortedDescending(items: seq<Item>, collate: (string, string) -> bool)
  {
    forall i, j :: 0 <= i < j < |items| ==> collate(items[j].display, items[i].display)
  }

  /** Places `x` in front of the first item that collates no later than it. */
  function Insert(x: Item, items: seq<Item>, collate: (string, string) -> bool): (r: seq<Item>)
    ensures multiset(r) == multiset(items) + multiset{x}
    ensures |r| == |items| + 1
  {
    if |items| == 0 then [x]
    else if collate(items[0].display, x.display) then [x] + items
    else
      assert items == [items[0]] + items[1..];
      [items[0]] + Insert(x, items[1..], collate)
  }

  /** The items, sorted by insertion, largest label first. */
  function SortDescending(items: seq<Item>, collate: (string, string) -> bool): (r: seq<Item>)
    ensures multiset(r) == multiset(items)
    ensures |r| == |items|
  {
    if |items| == 0 then []
    else
      assert items == [items[0]] + items[1..];
      Insert(items[0], SortDescending(items[1..], collate), collate)
  }

  /** Every element of `Insert(x, items)` is `x` or an element of `items`. */
  lemma {:induction false} InsertElements(x: Item, items: seq<Item>, collate: (string, string) -> bool)
    ensures forall k :: 0 <= k < |Insert(x, items, collate)| ==>
              Insert(x, items, collate)[k] == x || Insert(x, items, collate)[k] in items
  {
    var r := Insert(x, items, collate);
    forall k | 0 <= k < |r| ensures r[k] == x || r[k] in items {
      assert r[k] in multiset(r);
    }
  }

  /** Insertion keeps a descending list descending. */
  lemma {:induction false} InsertSorted(x: Item, items: seq<Item>, collate: (string, string) -> bool)
    requires TotalPreorder(collate)
    requires SortedDescending(items, collate)
    ensures SortedDescending(Insert(x, items, collate), collate)
    decreases |items|
  {
    if |items| > 0 && !collate(items[0].display, x.display) {
      var tail := items[1..];
      assert SortedDescending(tail, collate) by {
        forall i, j | 0 <= i < j < |tail| ensures collate(tail[j].display, tail[i].display) {
          assert tail[i] == items[i + 1] && tail[j] == items[j + 1];
        }
      }
      InsertSorted(x, tail, collate);
      var rest := Insert(x, tail, collate);
      InsertElements(x, tail, collate);
      assert collate(x.display, items[0].display);
      forall k | 0 <= k < |rest| ensures collate(rest[k].display, items[0].display) {
        if rest[k] != x {
          var m :| 0 <= m < |tail| && tail[m] == rest[k];
          assert tail[m] == items[m + 1];
        }
      }
      var r := [items[0]] + rest;
      forall i, j | 0 <= i < j < |r| ensures collate(r[j].display, r[i].display) {
        if i == 0 {
          assert r[j] == rest[j - 1];
        } else {
          assert r[i] == rest[i - 1] && r[j] == rest[j - 1];
        }
      }
    }
  }

  /** The sorted list is in descending order of labels (and, by the contract of
      SortDescending, a permutation of its input). */
  lemma {:induction false} SortDescendingSorted(items: seq<Item>, collate: (string, string) -> bool)
    requires TotalPreorder(collate)
    ensures SortedDescending(SortDescending(items, collate), collate)
    decreases |items|
  {
    if |items| > 0 {
      SortDescendingSorted(items[1..], collate);
      InsertSorted(items[0], SortDescending(items[1..], collate), collate);
    }
  }

  /** One consistent collation: lexicographic order on code points, a
      shorter prefix first. */
  predicate CodePointCollate(x: string, y: string)
    decreases |x|
  {
    |x| == 0 || (|y| > 0 && (x[0] < y[0] || (x[0] == y[0] && CodePointCollate(x[1..], y[1..]))))
  }

  lemma {:induction false} CodePointTotal(x: string, y: string)
    ensures CodePointCollate(x, y) || CodePointCollate(y, x)
    decreases |x|
  {
    if |x| > 0 && |y| > 0 && x[0] == y[0] {
      CodePointTotal(x[1..], y[1..]);
    }
  }

  lemma {:induction false} CodePointTransitive(x: string, y: string, z: string)
    requires CodePointCollate(x, y) && CodePointCollate(y, z)
    ensures CodePointCollate(x, z)
    decreases |x|
  {
    if |x| > 0 && x[0] == y[0] && y[0] == z[0] {
      CodePointTransitive(x[1..], y[1..], z[1..]);
    }
  }

  /** Code-point order meets what the sort requires of a collation. */
  lemma CodePointIsTotalPreorder()
    ensures TotalPreorder(CodePointCollate)
  {
    forall x, y ensures CodePointCollate(x, y) || CodePointCollate(y, x) {
      CodePointTotal(x, y);
    }
    forall x, y, z | CodePointCollate(x, y) && CodePointCollate(y, z) ensures CodePointCollate(x, z) {
      CodePointTransitive(x, y, z);
    }
  }

  /** Three items whose labels strictly ascend come out reversed. */
  lemma SortThreeAscending(a: Item, b: Item, c: Item, collate: (string, string) -> bool)
    requires !collate(c.display, b.display) && !collate(c.display, a.display) && !collate(b.display, a.display)
    ensures SortDescending([a, b, c], collate) == [c, b, a]
  {
    assert [a, b, c][1..] == [b, c] && [b, c][1..] == [c];
    assert SortDescending([c], collate) == [c];
    assert SortDescending([b, c], collate) == Insert(b, [c], collate) == [c, b];
    assert Insert(a, [b], collate) == [b, a];
    assert Insert(a, [c, b], collate) == [c] + Insert(a, [b], collate);
  }

  lemma FruitOrder(x: string, y: string, z: string)
    requires x == "Apple" && y == "Banana" && z == "Cherry"
    ensures !CodePointCollate(z, y) && !CodePointCollate(z, x) && !CodePointCollate(y, x)
  {
  }

  /** Labels "Apple", "Banana", "Cherry" come out as "Cherry", "Banana", "Apple". */
  lemma SortExample(a: Item, b: Item, c: Item)
    requires a.display == "Apple" && b.display == "Banana" && c.display == "Cherry"
    ensures SortDescending([a, b, c], CodePointCollate) == [c, b, a]
  {
    FruitOrder(a.display, b.display, c.display);
    SortThreeAscending(a, b, c, CodePointCollate);
  }
}
