/** `Array.prototype.sort` with a comparator `(a, b) => key(b) - key(a)`:
    a stable sort into descending order of a numeric key, modelled as an
    insertion sort. */
module StableSort {
  import Seqs

  /** Descending order of `key`. */
  ghost predicate SortedDesc<T>(s: seq<T>, key: T -> real) {
    forall i, j :: 0 <= i < j < |s| ==> key(s[i]) >= key(s[j])
  }

  /** Places `x` in front of the first element whose key is not larger. */
  function Insert<T>(x: T, s: seq<T>, key: T -> real): (r: seq<T>)
    ensures |r| == |s| + 1
  {
    if s == [] || key(s[0]) <= key(x) then [x] + s else [s[0]] + Insert(x, s[1..], key)
  }

  /** The elements of `s` in descending order of `key`, ties in their original order. */
  function SortDesc<T>(s: seq<T>, key: T -> real): (r: seq<T>)
    ensures |r| == |s|
  {
    if s == [] then [] else Insert(s[0], SortDesc(s[1..], key), key)
  }

  lemma {:induction false} InsertSorted<T>(x: T, s: seq<T>, key: T -> real)
    requires SortedDesc(s, key)
    ensures SortedDesc(Insert(x, s, key), key)
    ensures Insert(x, s, key)[0] == x || (s != [] && Insert(x, s, key)[0] == s[0])
    decreases |s|
  {
    if s != [] && key(s[0]) > key(x) {
      var rest := Insert(x, s[1..], key);
      InsertSorted(x, s[1..], key);
      var r := [s[0]] + rest;
      forall i, j | 0 <= i < j < |r| ensures key(r[i]) >= key(r[j]) {
        if i == 0 {
          if rest[j - 1] != x {
            assert rest[j - 1] in s[1..] by { InsertMembers(x, s[1..], key, j - 1); }
          }
        }
      }
    }
  }

  lemma {:induction false} InsertMembers<T>(x: T, s: seq<T>, key: T -> real, k: nat)
    requires k < |s| + 1
    ensures Insert(x, s, key)[k] == x || Insert(x, s, key)[k] in s
    decreases |s|
  {
    if s != [] && key(s[0]) > key(x) && k > 0 {
      InsertMembers(x, s[1..], key, k - 1);
    }
  }

  /** The sort's result is in descending order of the key. */
  lemma {:induction false} SortDescSorted<T>(s: seq<T>, key: T -> real)
    ensures SortedDesc(SortDesc(s, key), key)
    decreases |s|
  {
    if s != [] {
      SortDescSorted(s[1..], key);
      InsertSorted(s[0], SortDesc(s[1..], key), key);
    }
  }

  lemma {:induction false} InsertPermutes<T>(x: T, s: seq<T>, key: T -> real)
    ensures multiset(Insert(x, s, key)) == multiset(s) + multiset{x}
    decreases |s|
  {
    if s != [] && key(s[0]) > key(x) {
      InsertPermutes(x, s[1..], key);
      assert s == [s[0]] + s[1..];
    }
  }

  /** The sort neither drops nor duplicates elements. */
  lemma {:induction false} SortDescPermutes<T>(s: seq<T>, key: T -> real)
    ensures multiset(SortDesc(s, key)) == multiset(s)
    decreases |s|
  {
    if s != [] {
      SortDescPermutes(s[1..], key);
      InsertPermutes(s[0], SortDesc(s[1..], key), key);
      assert s == [s[0]] + s[1..];
    }
  }

  /** The elements whose key is `k`. */
  function KeyIs<T>(key: T -> real, k: real): T -> bool { (x: T) => key(x) == k }

  lemma {:induction false} InsertStable<T>(x: T, s: seq<T>, key: T -> real, k: real)
    ensures Seqs.Filter(Insert(x, s, key), KeyIs(key, k))
            == (if key(x) == k then [x] else []) + Seqs.Filter(s, KeyIs(key, k))
    decreases |s|
  {
    if s == [] || key(s[0]) <= key(x) {
      assert Insert(x, s, key) == [x] + s;
      Seqs.FilterAppend([x], s, KeyIs(key, k));
    } else {
      InsertStable(x, s[1..], key, k);
      assert Insert(x, s, key) == [s[0]] + Insert(x, s[1..], key);
      Seqs.FilterAppend([s[0]], Insert(x, s[1..], key), KeyIs(key, k));
      Seqs.FilterAppend([s[0]], s[1..], KeyIs(key, k));
      assert s == [s[0]] + s[1..];
    }
  }

  /** Stability: the elements with any given key keep their original order. */
  lemma {:induction false} SortDescStable<T>(s: seq<T>, key: T -> real, k: real)
    ensures Seqs.Filter(SortDesc(s, key), KeyIs(key, k)) == Seqs.Filter(s, KeyIs(key, k))
    decreases |s|
  {
    if s != [] {
      SortDescStable(s[1..], key, k);
      InsertStable(s[0], SortDesc(s[1..], key), key, k);
      Seqs.FilterAppend([s[0]], s[1..], KeyIs(key, k));
      assert s == [s[0]] + s[1..];
    }
  }

  /** The first `k` sorted elements are the `k` largest: an element of `s`
      left out of them has a key no larger than any of theirs. */
  lemma TakeSortedIsTop<T>(s: seq<T>, key: T -> real, k: int, q: T)
    requires q in s && q !in Seqs.Take(SortDesc(s, key), k)
    ensures forall i :: 0 <= i < |Seqs.Take(SortDesc(s, key), k)| ==>
              key(Seqs.Take(SortDesc(s, key), k)[i]) >= key(q)
  {
    var sorted := SortDesc(s, key);
    SortDescPermutes(s, key);
    SortDescSorted(s, key);
    assert q in multiset(sorted);
    var j :| 0 <= j < |sorted| && sorted[j] == q;
    var t := Seqs.Take(sorted, k);
    assert j >= |t|;
    forall i | 0 <= i < |t| ensures key(t[i]) >= key(q) {
      assert t[i] == sorted[i];
    }
  }
}
