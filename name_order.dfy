/**
 * The order the newest revision sorts listings by: names lower-cased (ASCII
 * letters only) and compared the way Rust's `Ord` compares strings, character
 * by character with a proper prefix first.
 */
module NameOrder {

  function LowerChar(c: char): (r: char)
    ensures 'A' <= c <= 'Z' ==> 'a' <= r <= 'z' && r as int - c as int == 32
    ensures !('A' <= c <= 'Z') ==> r == c
  {
    if 'A' <= c <= 'Z' then (c as int + 32) as char else c
  }

  /** `str::to_lowercase`, restricted to ASCII letters. */
  function Lower(s: string): (r: string)
    ensures |r| == |s|
    ensures forall i :: 0 <= i < |s| ==> r[i] == LowerChar(s[i])
  {
    if s == [] then [] else [LowerChar(s[0])] + Lower(s[1..])
  }

  /** Lower-casing twice changes nothing more. */
  lemma LowerIdempotent(s: string)
    ensures Lower(Lower(s)) == Lower(s)
  {
  }

  /** `a <= b` in the order `Ord::cmp` gives strings. */
  predicate LexLe(a: string, b: string)
    decreases |a|
  {
    a == [] || (b != [] && (a[0] < b[0] || (a[0] == b[0] && LexLe(a[1..], b[1..]))))
  }

  lemma {:induction false} LexLeReflexive(a: string)
    ensures LexLe(a, a)
    decreases |a|
  {
    if a != [] { LexLeReflexive(a[1..]); }
  }

  lemma {:induction false} LexLeTotal(a: string, b: string)
    ensures LexLe(a, b) || LexLe(b, a)
    decreases |a|
  {
    if a != [] && b != [] && a[0] == b[0] { LexLeTotal(a[1..], b[1..]); }
  }

  lemma {:induction false} LexLeTransitive(a: string, b: string, c: string)
    requires LexLe(a, b) && LexLe(b, c)
    ensures LexLe(a, c)
    decreases |a|
  {
    if a != [] && b != [] && c != [] && a[0] == b[0] == c[0] {
      LexLeTransitive(a[1..], b[1..], c[1..]);
    }
  }

  lemma {:induction false} LexLeAntisymmetric(a: string, b: string)
    requires LexLe(a, b) && LexLe(b, a)
    ensures a == b
    decreases |a|
  {
    if a != [] && b != [] {
      LexLeAntisymmetric(a[1..], b[1..]);
      assert a == [a[0]] + a[1..] && b == [b[0]] + b[1..];
    }
  }

  /** `a` is smaller at the first position where the two strings differ. */
  predicate LessAtFirstDifference(a: string, b: string) {
    exists k :: 0 <= k < |a| && k < |b| && a[..k] == b[..k] && a[k] < b[k]
  }

  /** Strings with different first characters first differ there. */
  lemma FirstDifferenceAtHead(a: string, b: string)
    requires a != [] && b != [] && a[0] != b[0]
    ensures LessAtFirstDifference(a, b) <==> a[0] < b[0]
  {
    assert a[..0] == b[..0];
    assert forall k :: 0 < k <= |a| && k <= |b| && a[..k] == b[..k] ==> a[..k][0] == b[..k][0];
  }

  /** Strings with the same first character first differ where their tails do, and are prefixes where their tails are. */
  lemma FirstDifferenceInTail(a: string, b: string)
    requires a != [] && b != [] && a[0] == b[0]
    ensures LessAtFirstDifference(a, b) <==> LessAtFirstDifference(a[1..], b[1..])
    ensures a <= b <==> a[1..] <= b[1..]
  {
    assert a == [a[0]] + a[1..] && b == [b[0]] + b[1..];
    if LessAtFirstDifference(a[1..], b[1..]) {
      var k :| 0 <= k < |a[1..]| && k < |b[1..]| && a[1..][..k] == b[1..][..k] && a[1..][k] < b[1..][k];
      assert a[..k + 1] == [a[0]] + a[1..][..k];
      assert b[..k + 1] == [b[0]] + b[1..][..k];
    }
    if LessAtFirstDifference(a, b) {
      var k :| 0 <= k < |a| && k < |b| && a[..k] == b[..k] && a[k] < b[k];
      assert k > 0;
      assert a[1..][..k - 1] == a[..k][1..] && b[1..][..k - 1] == b[..k][1..];
    }
  }

  /**
   * `LexLe` is the usual lexicographic order: `a` is a prefix of `b`, or `a`
   * has the smaller character where they first differ.
   */
  lemma {:induction false} LexLeIff(a: string, b: string)
    ensures LexLe(a, b) <==> a <= b || LessAtFirstDifference(a, b)
    decreases |a|
  {
    if a == [] || b == [] {
    } else if a[0] != b[0] {
      FirstDifferenceAtHead(a, b);
    } else {
      LexLeIff(a[1..], b[1..]);
      FirstDifferenceInTail(a, b);
    }
  }

  /** Non-decreasing by `key`. */
  predicate SortedBy<T>(es: seq<T>, key: T -> string) {
    forall i, j :: 0 <= i < j < |es| ==> LexLe(key(es[i]), key(es[j]))
  }

  /** The elements of `es` whose key is `k`, in their order in `es`. */
  function WithKey<T>(es: seq<T>, key: T -> string, k: string): seq<T> {
    if es == [] then []
    else WithKey(es[..|es| - 1], key, k) + (if key(es[|es| - 1]) == k then [es[|es| - 1]] else [])
  }

  lemma WithKeyAppend<T>(es: seq<T>, e: T, key: T -> string, k: string)
    ensures WithKey(es + [e], key, k) == WithKey(es, key, k) + WithKey([e], key, k)
  {
    assert (es + [e])[..|es|] == es;
    assert [e][..0] == [];
  }

  /** Places `e` after every element of `es` whose key is not greater than its own. */
  function InsertBy<T>(es: seq<T>, e: T, key: T -> string): (r: seq<T>)
    ensures |r| == |es| + 1
  {
    if es == [] || LexLe(key(es[|es| - 1]), key(e)) then es + [e]
    else InsertBy(es[..|es| - 1], e, key) + [es[|es| - 1]]
  }

  /** Inserting adds `e` and loses nothing. */
  lemma {:induction false} InsertByPermutes<T>(es: seq<T>, e: T, key: T -> string)
    ensures multiset(InsertBy(es, e, key)) == multiset(es) + multiset{e}
  {
    if !(es == [] || LexLe(key(es[|es| - 1]), key(e))) {
      InsertByPermutes(es[..|es| - 1], e, key);
      assert es == es[..|es| - 1] + [es[|es| - 1]];
    }
  }

  /** Inserting into a sorted sequence keeps it sorted. */
  lemma {:induction false} InsertBySorted<T>(es: seq<T>, e: T, key: T -> string)
    requires SortedBy(es, key)
    ensures SortedBy(InsertBy(es, e, key), key)
  {
    if es == [] || LexLe(key(es[|es| - 1]), key(e)) {
      InsertAtEndSorted(es, e, key);
    } else {
      var init := es[..|es| - 1];
      InsertBySorted(init, e, key);
      InsertByPermutes(init, e, key);
      InsertBeforeSorted(es, e, key, InsertBy(init, e, key));
    }
  }

  lemma InsertAtEndSorted<T>(es: seq<T>, e: T, key: T -> string)
    requires es == [] || LexLe(key(es[|es| - 1]), key(e))
    requires SortedBy(es, key)
    ensures SortedBy(es + [e], key)
  {
    if es != [] {
      forall i | 0 <= i < |es|
        ensures LexLe(key(es[i]), key(e))
      {
        if i < |es| - 1 { LexLeTransitive(key(es[i]), key(es[|es| - 1]), key(e)); }
      }
    }
  }

  lemma InsertBeforeSorted<T>(es: seq<T>, e: T, key: T -> string, inserted: seq<T>)
    requires es != [] && !LexLe(key(es[|es| - 1]), key(e))
    requires multiset(inserted) == multiset(es[..|es| - 1]) + multiset{e}
    requires SortedBy(es, key) && SortedBy(inserted, key)
    ensures SortedBy(inserted + [es[|es| - 1]], key)
  {
    var init, last := es[..|es| - 1], es[|es| - 1];
    LexLeTotal(key(last), key(e));
    forall x | x in inserted
      ensures LexLe(key(x), key(last))
    {
      assert x in multiset(inserted);
      if x != e {
        assert x in multiset(init);
        var i :| 0 <= i < |init| && init[i] == x;
        assert es[i] == x;
      }
    }
    var r := inserted + [last];
    forall i, j | 0 <= i < j < |r|
      ensures LexLe(key(r[i]), key(r[j]))
    {
      if j == |r| - 1 { assert r[i] in inserted; }
    }
  }

  /** A stable sort by `key`, as an insertion sort. */
  function SortBy<T>(es: seq<T>, key: T -> string): (r: seq<T>)
    ensures |r| == |es|
  {
    if es == [] then []
    else InsertBy(SortBy(es[..|es| - 1], key), es[|es| - 1], key)
  }

  /** The sort loses and adds nothing. */
  lemma {:induction false} SortByPermutes<T>(es: seq<T>, key: T -> string)
    ensures multiset(SortBy(es, key)) == multiset(es)
  {
    if es != [] {
      SortByPermutes(es[..|es| - 1], key);
      InsertByPermutes(SortBy(es[..|es| - 1], key), es[|es| - 1], key);
      assert es == es[..|es| - 1] + [es[|es| - 1]];
    }
  }

  /** The sort's result is sorted. */
  lemma {:induction false} SortBySorted<T>(es: seq<T>, key: T -> string)
    ensures SortedBy(SortBy(es, key), key)
  {
    if es != [] {
      SortBySorted(es[..|es| - 1], key);
      InsertBySorted(SortBy(es[..|es| - 1], key), es[|es| - 1], key);
    }
  }

  lemma {:induction false} InsertByStable<T>(es: seq<T>, e: T, key: T -> string, k: string)
    ensures WithKey(InsertBy(es, e, key), key, k) == WithKey(es, key, k) + WithKey([e], key, k)
  {
    if es == [] || LexLe(key(es[|es| - 1]), key(e)) {
      WithKeyAppend(es, e, key, k);
    } else {
      var init, last := es[..|es| - 1], es[|es| - 1];
      var inserted := InsertBy(init, e, key);
      assert InsertBy(es, e, key) == inserted + [last];
      InsertByStable(init, e, key, k);
      WithKeyAppend(inserted, last, key, k);
      WithKeyAppend(init, last, key, k);
      assert es == init + [last];
      LexLeReflexive(key(e));
      if key(e) == k {
        assert key(last) != k;
        assert WithKey([last], key, k) == [];
      } else {
        assert WithKey([e], key, k) == [];
      }
    }
  }

  /** Stability: elements with equal keys keep their relative order. */
  lemma {:induction false} SortByStable<T>(es: seq<T>, key: T -> string, k: string)
    ensures WithKey(SortBy(es, key), key, k) == WithKey(es, key, k)
  {
    if es != [] {
      var init, last := es[..|es| - 1], es[|es| - 1];
      SortByStable(init, key, k);
      InsertByStable(SortBy(init, key), last, key, k);
      WithKeyAppend(init, last, key, k);
      assert es == init + [last];
    }
  }

  /** `e` goes after the last element when its key is not smaller. */
  lemma InsertAfterLast<T>(es: seq<T>, e: T, key: T -> string)
    requires es == [] || LexLe(key(es[|es| - 1]), key(e))
    ensures InsertBy(es, e, key) == es + [e]
  {
  }

  /** `e` goes before the last element when its key is smaller. */
  lemma InsertBeforeLast<T>(es: seq<T>, e: T, key: T -> string)
    requires es != [] && !LexLe(key(es[|es| - 1]), key(e))
    ensures InsertBy(es, e, key) == InsertBy(es[..|es| - 1], e, key) + [es[|es| - 1]]
  {
  }

  /** The sort inserts the last element into the sorted rest. */
  lemma SortByLast<T>(es: seq<T>, key: T -> string)
    requires es != []
    ensures SortBy(es, key) == InsertBy(SortBy(es[..|es| - 1], key), es[|es| - 1], key)
  {
  }

  /** Two elements out of order by key are swapped. */
  lemma SortTwo<T>(x: T, y: T, key: T -> string)
    requires !LexLe(key(x), key(y))
    ensures SortBy([x, y], key) == [y, x]
  {
    var one, two := [x], [x, y];
    assert two[..1] == one && one[..0] == [];
    SortByLast(one, key);
    InsertAfterLast([], x, key);
    assert SortBy(one, key) == [x];
    SortByLast(two, key);
    InsertBeforeLast([x], y, key);
    InsertAfterLast([], y, key);
  }

  /**
   * Three elements where the first has the greatest key and the other two
   * share a key: the first moves to the end and the other two keep their order.
   */
  lemma SortThree<T>(x: T, y: T, z: T, key: T -> string)
    requires key(y) == key(z) && !LexLe(key(x), key(y))
    ensures SortBy([x, y, z], key) == [y, z, x]
  {
    LexLeReflexive(key(y));
    var three := [x, y, z];
    assert three[..2] == [x, y];
    SortTwo(x, y, key);
    SortByLast(three, key);
    InsertBeforeLast([y, x], z, key);
    assert [y, x][..1] == [y];
    InsertAfterLast([y], z, key);
    assert SortBy(three, key) == [y, z] + [x];
  }
}
