/** The first-gap allocator of the entity webhook. */
module Ordinals {

  ghost predicate Ascending(s: seq<int>) {
    forall j, k :: 0 <= j < k < |s| ==> s[j] <= s[k]
  }

  ghost predicate Distinct(s: seq<int>) {
    forall j, k :: 0 <= j < k < |s| ==> s[j] != s[k]
  }

  ghost predicate NonNegative(s: seq<int>) {
    forall x :: x in s ==> 0 <= x
  }

  function Elements(s: seq<int>): set<int> {
    set x | x in s
  }

  /** The least ordinal from `i` upwards that nobody holds. */
  function LeastFreeFrom(taken: set<int>, i: int): (free: int)
    ensures i <= free && free !in taken
    ensures forall j :: i <= j < free ==> j in taken
    decreases |set j | j in taken && i <= j|
  {
    if i in taken then
      assert (set j | j in taken && i + 1 <= j) == (set j | j in taken && i <= j) - {i};
      LeastFreeFrom(taken, i + 1)
    else i
  }

  function LeastFree(taken: set<int>): int {
    LeastFreeFrom(taken, 0)
  }

  // ---------- the library sort, as a contract ----------

  function Insert(x: int, s: seq<int>): (r: seq<int>)
    ensures multiset(r) == multiset(s) + multiset{x}
  {
    if s == [] then [x]
    else if x < s[0] then [x] + s
    else
      assert s == [s[0]] + s[1..];
      [s[0]] + Insert(x, s[1..])
  }

  function Sort(s: seq<int>): (r: seq<int>)
    ensures multiset(r) == multiset(s)
  {
    if s == [] then [] else
      assert s == [s[0]] + s[1..];
      Insert(s[0], Sort(s[1..]))
  }

  lemma {:induction false} InsertBounded(x: int, s: seq<int>, low: int)
    requires low <= x && forall k :: 0 <= k < |s| ==> low <= s[k]
    ensures forall k :: 0 <= k < |Insert(x, s)| ==> low <= Insert(x, s)[k]
  {
    if s != [] && s[0] <= x { InsertBounded(x, s[1..], low); }
  }

  lemma {:induction false} InsertAscending(x: int, s: seq<int>)
    requires Ascending(s)
    ensures Ascending(Insert(x, s))
  {
    if s != [] && s[0] <= x {
      InsertAscending(x, s[1..]);
      InsertBounded(x, s[1..], s[0]);
    }
  }

  lemma {:induction false} SortAscending(s: seq<int>)
    ensures Ascending(Sort(s))
  {
    if s != [] {
      SortAscending(s[1..]);
      InsertAscending(s[0], Sort(s[1..]));
    }
  }

  lemma {:induction false} DistinctMultiset(s: seq<int>)
    requires Distinct(s)
    ensures forall x :: multiset(s)[x] <= 1
  {
    if s != [] {
      DistinctMultiset(s[1..]);
      assert s == [s[0]] + s[1..];
      assert s[0] !in multiset(s[1..]);
    }
  }

  lemma RepeatedMultiset(s: seq<int>, j: nat, k: nat)
    requires j < k < |s| && s[j] == s[k]
    ensures multiset(s)[s[j]] >= 2
  {
    assert s == s[..k] + s[k..];
    assert s[j] == s[..k][j] && s[k] == s[k..][0];
    assert s[j] in multiset(s[..k]) && s[k] in multiset(s[k..]);
  }

  /** The library sort: ascending, a permutation of its input. */
  method SortList(s: seq<int>) returns (r: seq<int>)
    ensures Ascending(r) && multiset(r) == multiset(s) && |r| == |s|
    ensures Elements(r) == Elements(s)
    ensures Distinct(s) ==> Distinct(r)
  {
    r := Sort(s);
    SortAscending(s);
    assert |r| == |multiset(r)| == |multiset(s)| == |s|;
    assert Elements(r) == Elements(s) by {
      forall x ensures x in r <==> x in s {
        assert x in r <==> x in multiset(r);
        assert x in s <==> x in multiset(s);
      }
    }
    if Distinct(s) {
      DistinctMultiset(s);
      forall j, k | 0 <= j < k < |r| ensures r[j] != r[k] {
        if r[j] == r[k] { RepeatedMultiset(r, j, k); }
      }
    }
  }

  // ---------- the allocator ----------

  /** The loop stopped after `k` items, none of them above its own position. */
  lemma GapIsFree(items: seq<int>, k: nat, ordinal: int)
    requires Ascending(items) && k <= |items|
    requires forall j :: 0 <= j < k ==> items[j] <= j
    requires ordinal == if k < |items| then k else if k == 0 || items[k - 1] == k - 1 then k else k - 1
    requires k < |items| ==> items[k] > k
    ensures 0 <= ordinal <= |items| && ordinal !in items
    ensures Distinct(items) && NonNegative(items) ==> ordinal == LeastFree(Elements(items))
  {
    if k < |items| {
      assert forall j :: k <= j < |items| ==> items[j] >= items[k];
    } else if k > 0 {
      assert forall j :: 0 <= j < |items| ==> items[j] <= items[k - 1];
    }
    if Distinct(items) && NonNegative(items) {
      DenseBelow(items, k);
      forall j | 0 <= j < ordinal ensures j in Elements(items) {
        assert items[j] == j;
      }
      assert ordinal !in Elements(items);
    }
  }

  lemma {:induction false} DenseBelow(items: seq<int>, k: nat)
    requires Ascending(items) && Distinct(items) && NonNegative(items) && k <= |items|
    requires forall j :: 0 <= j < k ==> items[j] <= j
    ensures forall j :: 0 <= j < k ==> items[j] == j
  {
    if k > 0 {
      DenseBelow(items, k - 1);
      assert items[k - 1] in items;
      assert k > 1 ==> items[k - 2] < items[k - 1];
    }
  }

  /** The webhook's loop over the list of ordinals already in use. On any list, duplicates
      and negative numbers included, the ordinal handed out is new and at most the list's
      length; on the lists that occur in a cluster it is the least free one. */
  method FirstGap(listed: seq<int>) returns (ordinal: int)
    ensures 0 <= ordinal <= |listed| && ordinal !in listed
    ensures Distinct(listed) && NonNegative(listed) ==> ordinal == LeastFree(Elements(listed))
  {
    var items := SortList(listed);
    forall x ensures x in items <==> x in listed {
      assert x in Elements(items) <==> x in Elements(listed);
    }
    ordinal := -1;
    var highest := 0;
    var k := 0;
    while k < |items|
      invariant 0 <= k <= |items| && ordinal == k - 1
      invariant highest == if k == 0 then 0 else items[k - 1]
      invariant forall j :: 0 <= j < k ==> items[j] <= j
    {
      ordinal := ordinal + 1;
      highest := items[k];
      if highest > ordinal {
        break;
      }
      k := k + 1;
    }
    if highest == ordinal || ordinal == -1 {
      ordinal := ordinal + 1;
    }
    GapIsFree(items, k, ordinal);
  }
}
