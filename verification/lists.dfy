/**
 * The array operations of JavaScript that the portal chains together:
 * `filter`, a stable `sort` by a numeric key, and de-duplication that keeps
 * the first element of each key (a `Set` built in order, or a `seen` list).
 */
module Lists {

  /** Appending the next element of `all` to a prefix of `all` gives the next prefix. */
  lemma PrefixPush<T>(all: seq<T>, xs: seq<T>, x: T)
    requires |xs| < |all| && xs == all[..|xs|] && x == all[|xs|]
    ensures xs + [x] == all[..|xs| + 1]
  {
  }

  /** A prefix of `all` as long as `all` is `all`. */
  lemma PrefixWhole<T>(all: seq<T>, xs: seq<T>)
    requires |xs| == |all| && xs == all[..|xs|]
    ensures xs == all
  {
  }

  /** `s.map(f)`. */
  function MapSeq<A, B>(s: seq<A>, f: A -> B): (r: seq<B>)
    ensures |r| == |s| && forall k :: 0 <= k < |s| ==> r[k] == f(s[k])
  {
    seq(|s|, k requires 0 <= k < |s| => f(s[k]))
  }

  /** Mapping one more element of `s` appends its image. */
  lemma MapPush<A, B>(s: seq<A>, i: nat, f: A -> B)
    requires i < |s|
    ensures MapSeq(s[..i + 1], f) == MapSeq(s[..i], f) + [f(s[i])]
  {
  }

  predicate Distinct<T(==)>(s: seq<T>) {
    forall i, j :: 0 <= i < j < |s| ==> s[i] != s[j]
  }

  predicate DistinctKeys<T, K(==)>(s: seq<T>, key: T -> K) {
    forall i, j :: 0 <= i < j < |s| ==> key(s[i]) != key(s[j])
  }

  /** Ascending by `key`, as `sort((a, b) => key(a) - key(b))` leaves it. */
  predicate SortedBy<T>(s: seq<T>, key: T -> int) {
    forall i, j :: 0 <= i < j < |s| ==> key(s[i]) <= key(s[j])
  }

  /** `s.filter(p)`. */
  function Filter<T(!new)>(s: seq<T>, p: T -> bool): (r: seq<T>)
    ensures |r| <= |s|
    ensures forall x :: x in r <==> x in s && p(x)
  {
    if |s| == 0 then []
    else if p(s[0]) then [s[0]] + Filter(s[1..], p)
    else Filter(s[1..], p)
  }

  /** Filtering keeps the order, so it keeps an order by key. */
  lemma {:induction false} FilterSorted<T(!new)>(s: seq<T>, p: T -> bool, key: T -> int)
    requires SortedBy(s, key)
    ensures SortedBy(Filter(s, p), key)
  {
    if |s| > 0 {
      FilterSorted(s[1..], p, key);
      var rest := Filter(s[1..], p);
      forall y | y in rest ensures key(s[0]) <= key(y) {
        var j :| 0 <= j < |s[1..]| && s[1..][j] == y;
        assert s[j + 1] == y;
      }
    }
  }

  /** Filtering keeps distinct elements distinct. */
  lemma {:induction false} FilterDistinct<T(!new)>(s: seq<T>, p: T -> bool)
    requires Distinct(s)
    ensures Distinct(Filter(s, p))
  {
    if |s| > 0 {
      FilterDistinct(s[1..], p);
      assert s[0] !in s[1..];
    }
  }

  /** Filtering a list whose elements all pass gives the list back. */
  lemma {:induction false} FilterKeepsAll<T(!new)>(s: seq<T>, p: T -> bool)
    requires forall i :: 0 <= i < |s| ==> p(s[i])
    ensures Filter(s, p) == s
  {
    if |s| > 0 {
      FilterKeepsAll(s[1..], p);
    }
  }

  /** Filtering distributes over concatenation. */
  lemma {:induction false} FilterAppend<T(!new)>(s: seq<T>, t: seq<T>, p: T -> bool)
    ensures Filter(s + t, p) == Filter(s, p) + Filter(t, p)
  {
    if |s| > 0 {
      assert (s + t)[1..] == s[1..] + t;
      FilterAppend(s[1..], t, p);
    } else {
      assert s + t == t;
    }
  }

  /** Filtering keeps every element it admits as often as it occurs, and no other. */
  lemma {:induction false} FilterCount<T(!new)>(s: seq<T>, p: T -> bool, x: T)
    ensures multiset(Filter(s, p))[x] == if p(x) then multiset(s)[x] else 0
  {
    if |s| > 0 {
      FilterCount(s[1..], p, x);
      assert s == [s[0]] + s[1..];
    }
  }

  /**
   * `filter` keeps each admitted element as often as it occurs and keeps the
   * order: what it keeps of a prefix comes before what it keeps of the rest.
   */
  lemma FilterKeeps<T(!new)>(s: seq<T>, p: T -> bool)
    ensures forall x :: multiset(Filter(s, p))[x] == if p(x) then multiset(s)[x] else 0
    ensures forall k :: 0 <= k <= |s| ==> Filter(s, p) == Filter(s[..k], p) + Filter(s[k..], p)
  {
    forall x ensures multiset(Filter(s, p))[x] == if p(x) then multiset(s)[x] else 0 {
      FilterCount(s, p, x);
    }
    forall k | 0 <= k <= |s| ensures Filter(s, p) == Filter(s[..k], p) + Filter(s[k..], p) {
      assert s == s[..k] + s[k..];
      FilterAppend(s[..k], s[k..], p);
    }
  }

  /** Filtering keeps distinct keys distinct. */
  lemma {:induction false} FilterDistinctKeys<T(!new), K>(s: seq<T>, p: T -> bool, key: T -> K)
    requires DistinctKeys(s, key)
    ensures DistinctKeys(Filter(s, p), key)
  {
    if |s| > 0 {
      FilterDistinctKeys(s[1..], p, key);
      var rest := Filter(s[1..], p);
      forall y | y in rest ensures key(y) != key(s[0]) {
        var j :| 0 <= j < |s[1..]| && s[1..][j] == y;
        assert s[j + 1] == y;
      }
    }
  }

  /**
   * One step of a stable insertion sort: `x` goes after every element whose
   * key is not greater than its own.
   */
  function Insert<T>(x: T, s: seq<T>, key: T -> int): (r: seq<T>)
    ensures multiset(r) == multiset(s) + multiset{x}
  {
    if |s| == 0 then [x]
    else if key(x) < key(s[0]) then [x] + s
    else
      assert s == [s[0]] + s[1..];
      [s[0]] + Insert(x, s[1..], key)
  }

  /** Inserting into a list sorted by key leaves it sorted. */
  lemma {:induction false} InsertSorted<T>(x: T, s: seq<T>, key: T -> int)
    requires SortedBy(s, key)
    ensures SortedBy(Insert(x, s, key), key)
  {
    if |s| > 0 && key(s[0]) <= key(x) {
      var rest := Insert(x, s[1..], key);
      InsertSorted(x, s[1..], key);
      forall y | y in rest ensures key(s[0]) <= key(y) {
        assert y in multiset(rest);
        if y != x {
          assert y in s[1..];
          var j :| 0 <= j < |s[1..]| && s[1..][j] == y;
          assert s[j + 1] == y;
        }
      }
    }
  }

  /**
   * A stable sort by ascending key, the order `Array.prototype.sort` gives
   * with the comparator `(a, b) => key(a) - key(b)`: elements are taken left
   * to right and each goes after the equal keys already placed.
   */
  function SortBy<T>(s: seq<T>, key: T -> int): (r: seq<T>)
    ensures multiset(r) == multiset(s)
    ensures SortedBy(r, key)
  {
    if |s| == 0 then []
    else
      assert s == s[..|s| - 1] + [s[|s| - 1]];
      InsertSorted(s[|s| - 1], SortBy(s[..|s| - 1], key), key);
      Insert(s[|s| - 1], SortBy(s[..|s| - 1], key), key)
  }

  /** The elements whose key is `k`. */
  function KeyIs<T>(key: T -> int, k: int): T -> bool {
    x => key(x) == k
  }

  /** Filtering out every element of a list leaves nothing. */
  lemma {:induction false} FilterNone<T(!new)>(s: seq<T>, p: T -> bool)
    requires forall i :: 0 <= i < |s| ==> !p(s[i])
    ensures Filter(s, p) == []
  {
    if |s| > 0 {
      FilterNone(s[1..], p);
    }
  }

  /**
   * Inserting into a sorted list puts `x` after every element with its key,
   * so among the elements of one key it comes last.
   */
  lemma {:induction false} InsertStable<T(!new)>(x: T, s: seq<T>, key: T -> int, k: int)
    requires SortedBy(s, key)
    ensures Filter(Insert(x, s, key), KeyIs(key, k)) == Filter(s, KeyIs(key, k)) + Filter([x], KeyIs(key, k))
  {
    var p := KeyIs(key, k);
    if |s| > 0 {
      assert s == [s[0]] + s[1..];
      FilterAppend([s[0]], s[1..], p);
      if key(x) < key(s[0]) {
        FilterAppend([x], s, p);
        if key(x) == k {
          FilterNone(s, p);
        }
      } else {
        InsertStable(x, s[1..], key, k);
        FilterAppend([s[0]], Insert(x, s[1..], key), p);
      }
    }
  }

  /**
   * The sort is stable: the elements of any one key come out in the order
   * they went in, each as often as it occurred.
   */
  lemma {:induction false} SortStable<T(!new)>(s: seq<T>, key: T -> int, k: int)
    ensures Filter(SortBy(s, key), KeyIs(key, k)) == Filter(s, KeyIs(key, k))
  {
    if |s| > 0 {
      var init := s[..|s| - 1];
      var last := s[|s| - 1];
      SortStable(init, key, k);
      InsertStable(last, SortBy(init, key), key, k);
      assert s == init + [last];
      FilterAppend(init, [last], KeyIs(key, k));
    }
  }

  /** Inserting a new element into a list without repeats leaves none. */
  lemma {:induction false} InsertDistinct<T>(x: T, s: seq<T>, key: T -> int)
    requires Distinct(s) && x !in s
    ensures Distinct(Insert(x, s, key))
  {
    if |s| > 0 && key(s[0]) <= key(x) {
      var rest := Insert(x, s[1..], key);
      InsertDistinct(x, s[1..], key);
      assert s[0] !in s[1..];
      assert s[0] !in multiset(rest);
    }
  }

  /** Sorting a list without repeats leaves none. */
  lemma {:induction false} SortDistinct<T>(s: seq<T>, key: T -> int)
    requires Distinct(s)
    ensures Distinct(SortBy(s, key))
  {
    if |s| > 0 {
      var init := s[..|s| - 1];
      var last := s[|s| - 1];
      SortDistinct(init, key);
      assert last !in init;
      assert last !in multiset(SortBy(init, key));
      InsertDistinct(last, SortBy(init, key), key);
    }
  }

  /** True when some element of `s` has key `k`. */
  predicate HasKey<T, K(==)>(s: seq<T>, key: T -> K, k: K) {
    exists i :: 0 <= i < |s| && key(s[i]) == k
  }

  /**
   * Keeps the first element of each key, in the order of `s`: what
   * `Array.from(new Set(s))` does for the identity key, and what a loop
   * with a `seen` list does for any key.
   */
  function DedupeBy<T, K(==,!new)>(s: seq<T>, key: T -> K): (r: seq<T>)
    ensures DistinctKeys(r, key)
    ensures forall y :: y in r ==> y in s
    ensures forall k :: HasKey(r, key, k) <==> HasKey(s, key, k)
  {
    if |s| == 0 then []
    else
      var d := DedupeBy(s[..|s| - 1], key);
      var x := s[|s| - 1];
      assert forall k :: HasKey(s, key, k) <==> HasKey(s[..|s| - 1], key, k) || key(x) == k by {
        forall k ensures HasKey(s, key, k) <==> HasKey(s[..|s| - 1], key, k) || key(x) == k {
          if HasKey(s, key, k) {
            var i :| 0 <= i < |s| && key(s[i]) == k;
            if i < |s| - 1 {
              assert s[..|s| - 1][i] == s[i];
            }
          }
          if HasKey(s[..|s| - 1], key, k) {
            var i :| 0 <= i < |s| - 1 && key(s[..|s| - 1][i]) == k;
            assert s[i] == s[..|s| - 1][i];
          }
        }
      }
      if HasKey(d, key, key(x)) then d
      else
        var r := d + [x];
        assert forall k :: HasKey(r, key, k) <==> HasKey(d, key, k) || key(x) == k by {
          forall k ensures HasKey(r, key, k) <==> HasKey(d, key, k) || key(x) == k {
            if HasKey(r, key, k) {
              var i :| 0 <= i < |r| && key(r[i]) == k;
              if i < |d| {
                assert r[i] == d[i];
              }
            }
            if HasKey(d, key, k) {
              var i :| 0 <= i < |d| && key(d[i]) == k;
              assert r[i] == d[i];
            }
            if key(x) == k {
              assert r[|d|] == x;
            }
          }
        }
        r
  }

  /** Every kept element is the first element of `s` with its key. */
  lemma {:induction false} DedupeKeepsFirst<T, K(!new)>(s: seq<T>, key: T -> K, y: T)
    requires y in DedupeBy(s, key)
    ensures exists i :: 0 <= i < |s| && s[i] == y && forall j :: 0 <= j < i ==> key(s[j]) != key(y)
  {
    var init := s[..|s| - 1];
    var d := DedupeBy(init, key);
    var x := s[|s| - 1];
    if y in d {
      DedupeKeepsFirst(init, key, y);
      var i :| 0 <= i < |init| && init[i] == y && forall j :: 0 <= j < i ==> key(init[j]) != key(y);
      assert s[i] == y;
      forall j | 0 <= j < i ensures key(s[j]) != key(y) {
        assert s[j] == init[j];
      }
    } else {
      assert y == x;
      assert !HasKey(d, key, key(x));
      assert !HasKey(init, key, key(x));
      forall j | 0 <= j < |s| - 1 ensures key(s[j]) != key(y) {
        assert s[j] == init[j];
      }
    }
  }

  /** For an identity key, the de-duplicated list has every element exactly once. */
  lemma DedupeIdentity<T(!new)>(s: seq<T>, key: T -> T)
    requires forall x :: key(x) == x
    ensures Distinct(DedupeBy(s, key))
    ensures forall y :: y in DedupeBy(s, key) <==> y in s
  {
    var r := DedupeBy(s, key);
    forall y | y in s ensures y in r {
      var i :| 0 <= i < |s| && s[i] == y;
      assert HasKey(s, key, y);
      assert HasKey(r, key, y);
    }
  }
}
