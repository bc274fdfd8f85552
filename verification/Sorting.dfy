/** The stable sort by a numeric key that `Array.prototype.sort` performs. */
module Sorting {
  /** Before the first element whose key is not smaller: equal keys keep their order. */
  function Insert<T>(x: T, s: seq<T>, key: T -> int): (r: seq<T>)
    ensures |r| == |s| + 1
  {
    if s == [] || key(x) <= key(s[0]) then [x] + s else [s[0]] + Insert(x, s[1..], key)
  }

  function SortBy<T>(s: seq<T>, key: T -> int): (r: seq<T>)
    ensures |r| == |s|
  {
    if s == [] then [] else Insert(s[0], SortBy(s[1..], key), key)
  }

  ghost predicate Ordered<T>(s: seq<T>, key: T -> int) {
    forall i, j :: 0 <= i < j < |s| ==> key(s[i]) <= key(s[j])
  }

  predicate Ascending(s: seq<int>) {
    forall i, j :: 0 <= i < j < |s| ==> s[i] <= s[j]
  }

  function Keys<T>(s: seq<T>, key: T -> int): (k: seq<int>)
    ensures |k| == |s|
    ensures forall i :: 0 <= i < |s| ==> k[i] == key(s[i])
  {
    seq(|s|, i requires 0 <= i < |s| => key(s[i]))
  }

  lemma {:induction false} InsertMultiset<T>(x: T, s: seq<T>, key: T -> int)
    ensures multiset(Insert(x, s, key)) == multiset(s) + multiset{x}
  {
    if s != [] && key(x) > key(s[0]) {
      InsertMultiset(x, s[1..], key);
      assert s == [s[0]] + s[1..];
    }
  }

  lemma {:induction false} SortMultiset<T>(s: seq<T>, key: T -> int)
    ensures multiset(SortBy(s, key)) == multiset(s)
  {
    if s != [] {
      SortMultiset(s[1..], key);
      InsertMultiset(s[0], SortBy(s[1..], key), key);
      assert s == [s[0]] + s[1..];
    }
  }

  lemma {:induction false} InsertOrdered<T>(x: T, s: seq<T>, key: T -> int)
    requires Ordered(s, key)
    ensures Ordered(Insert(x, s, key), key)
    ensures Insert(x, s, key)[0] == x || (s != [] && Insert(x, s, key)[0] == s[0])
  {
    if s != [] && key(x) > key(s[0]) {
      InsertOrdered(x, s[1..], key);
    }
  }

  lemma {:induction false} SortOrdered<T>(s: seq<T>, key: T -> int)
    ensures Ordered(SortBy(s, key), key)
  {
    if s != [] {
      SortOrdered(s[1..], key);
      InsertOrdered(s[0], SortBy(s[1..], key), key);
    }
  }

  lemma {:induction false} SortedAlready<T>(s: seq<T>, key: T -> int)
    requires Ordered(s, key)
    ensures SortBy(s, key) == s
  {
    if s != [] {
      SortedAlready(s[1..], key);
      assert s == [s[0]] + s[1..];
    }
  }

  lemma SplitFirst<T>(s: seq<T>)
    requires s != []
    ensures multiset(s) == multiset{s[0]} + multiset(s[1..])
  {
    assert s == [s[0]] + s[1..];
  }

  lemma SplitAt<T>(s: seq<T>, i: nat)
    requires i < |s|
    ensures multiset(s) == multiset{s[i]} + multiset(s[..i] + s[i + 1..])
  {
    assert s == s[..i] + [s[i]] + s[i + 1..];
  }

  lemma Cancel<T>(x: multiset<T>, y: multiset<T>, z: multiset<T>)
    requires x + y == x + z
    ensures y == z
  {
    assert y == (x + y) - x && z == (x + z) - x;
  }

  /** The first of one listing, taken out of another. */
  lemma TakeOut<T>(a: seq<T>, b: seq<T>) returns (i: nat)
    requires multiset(a) == multiset(b) && a != []
    ensures i < |b| && b[i] == a[0] && b == b[..i] + ([b[i]] + b[i + 1..])
    ensures multiset(a[1..]) == multiset(b[..i] + b[i + 1..])
  {
    assert a[0] in multiset(b);
    i :| 0 <= i < |b| && b[i] == a[0];
    SplitFirst(a);
    SplitAt(b, i);
    Cancel(multiset{a[0]}, multiset(a[1..]), multiset(b[..i] + b[i + 1..]));
  }

  lemma LeastFirst(a: seq<int>, x: int)
    requires Ascending(a) && x in multiset(a)
    ensures a != [] && a[0] <= x
  {
    assert x in a;
  }

  /** Ascending sequences with the same elements are the same sequence. */
  lemma {:induction false} AscendingUnique(a: seq<int>, b: seq<int>)
    requires Ascending(a) && Ascending(b) && multiset(a) == multiset(b)
    ensures a == b
  {
    hide Ascending;
    assert |a| == |multiset(a)| == |multiset(b)| == |b|;
    if a != [] {
      TailAscending(a);
      TailAscending(b);
      SplitFirst(a);
      SplitFirst(b);
      LeastFirst(a, b[0]);
      LeastFirst(b, a[0]);
      Cancel(multiset{a[0]}, multiset(a[1..]), multiset(b[1..]));
      AscendingUnique(a[1..], b[1..]);
      assert a == [a[0]] + a[1..] && b == [b[0]] + b[1..];
    }
  }

  lemma TailAscending(s: seq<int>)
    requires Ascending(s) && s != []
    ensures Ascending(s[1..])
  {
  }

  lemma KeysConcat<T>(a: seq<T>, b: seq<T>, key: T -> int)
    ensures Keys(a + b, key) == Keys(a, key) + Keys(b, key)
  {
    assert forall i :: 0 <= i < |a + b| ==> Keys(a + b, key)[i] == (Keys(a, key) + Keys(b, key))[i];
  }

  lemma {:induction false} KeysMultiset<T>(a: seq<T>, b: seq<T>, key: T -> int)
    requires multiset(a) == multiset(b)
    ensures multiset(Keys(a, key)) == multiset(Keys(b, key))
  {
    assert |a| == |multiset(a)| == |multiset(b)| == |b|;
    if a != [] {
      var i := TakeOut(a, b);
      var before, after := b[..i], b[i + 1..];
      KeysMultiset(a[1..], before + after, key);
      assert a == [a[0]] + a[1..];
      KeysConcat([a[0]], a[1..], key);
      KeysConcat(before, [b[i]] + after, key);
      KeysConcat([b[i]], after, key);
      KeysConcat(before, after, key);
      assert Keys([a[0]], key) == [key(a[0])];
    }
  }

  /** The keys of a sorted sequence depend only on what was sorted, not on its order. */
  lemma SortedKeysUnique<T>(a: seq<T>, b: seq<T>, key: T -> int)
    requires multiset(a) == multiset(b)
    ensures Keys(SortBy(a, key), key) == Keys(SortBy(b, key), key)
  {
    SortMultiset(a, key);
    SortMultiset(b, key);
    SortOrdered(a, key);
    SortOrdered(b, key);
    KeysMultiset(SortBy(a, key), SortBy(b, key), key);
    AscendingUnique(Keys(SortBy(a, key), key), Keys(SortBy(b, key), key));
  }
}
