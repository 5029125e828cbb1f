/** The array methods the source leans on: `find`, `findIndex` and `filter`, the first two always by a key. */
module Seqs {
  import opened Basics

  /** `findIndex(x => key(x) === k)`: the first position holding that key. */
  function IndexOfKey<T, K(==)>(s: seq<T>, key: T -> K, k: K): (r: Option<nat>)
    ensures r.Some? ==> r.value < |s| && key(s[r.value]) == k
    ensures r.Some? ==> forall j :: 0 <= j < r.value ==> key(s[j]) != k
    ensures r.None? <==> forall j :: 0 <= j < |s| ==> key(s[j]) != k
  {
    if s == [] then None
    else if key(s[0]) == k then Some(0)
    else match IndexOfKey(s[1..], key, k)
      case None => None
      case Some(i) => Some(i + 1)
  }

  /** `find(x => key(x) === k) || null`: the first element holding that key. */
  function FindByKey<T, K(==)>(s: seq<T>, key: T -> K, k: K): (r: Option<T>)
    ensures r.None? <==> forall j :: 0 <= j < |s| ==> key(s[j]) != k
    ensures r.Some? ==>
      exists i :: 0 <= i < |s| && s[i] == r.value && key(s[i]) == k
        && forall j :: 0 <= j < i ==> key(s[j]) != k
  {
    match IndexOfKey(s, key, k)
    case None => None
    case Some(i) => Some(s[i])
  }

  /** With distinct keys, the element found is the only one holding the key. */
  lemma FindByKeyDistinct<T, K>(s: seq<T>, key: T -> K, k: K, i: nat)
    requires DistinctBy(s, key)
    requires i < |s| && key(s[i]) == k
    ensures FindByKey(s, key, k) == Some(s[i])
    ensures IndexOfKey(s, key, k) == Some(i)
  {
    assert IndexOfKey(s, key, k).Some?;
  }

  /** `filter(x => key(x) === k)`. */
  function KeepByKey<T, K(==)>(s: seq<T>, key: T -> K, k: K): (r: seq<T>)
    ensures |r| <= |s|
  {
    if s == [] then [] else (if key(s[0]) == k then [s[0]] else []) + KeepByKey(s[1..], key, k)
  }

  /** `filter(x => key(x) !== k)`. */
  function DropByKey<T, K(==)>(s: seq<T>, key: T -> K, k: K): (r: seq<T>)
    ensures |r| <= |s|
  {
    if s == [] then [] else (if key(s[0]) == k then [] else [s[0]]) + DropByKey(s[1..], key, k)
  }

  /** Keeping by a key keeps exactly the elements that hold it. */
  lemma {:induction false} KeepByKeyMembers<T, K>(s: seq<T>, key: T -> K, k: K)
    ensures forall x :: x in KeepByKey(s, key, k) <==> x in s && key(x) == k
  {
    if s != [] {
      KeepByKeyMembers(s[1..], key, k);
      assert forall x :: x in s <==> x == s[0] || x in s[1..];
    }
  }

  /**
   * Keeping by a key distributes over concatenation: the kept elements stay
   * in their order, each as often as it occurs.
   */
  lemma {:induction false} KeepByKeyAppend<T, K>(a: seq<T>, b: seq<T>, key: T -> K, k: K)
    ensures KeepByKey(a + b, key, k) == KeepByKey(a, key, k) + KeepByKey(b, key, k)
  {
    if a == [] {
      assert a + b == b;
    } else {
      var head := if key(a[0]) == k then [a[0]] else [];
      assert (a + b)[0] == a[0];
      assert (a + b)[1..] == a[1..] + b;
      calc {
        KeepByKey(a + b, key, k);
        head + KeepByKey(a[1..] + b, key, k);
        { KeepByKeyAppend(a[1..], b, key, k); }
        head + (KeepByKey(a[1..], key, k) + KeepByKey(b, key, k));
        (head + KeepByKey(a[1..], key, k)) + KeepByKey(b, key, k);
      }
    }
  }

  /** Dropping by a key distributes over concatenation: the rest keeps its order. */
  lemma {:induction false} DropByKeyAppend<T, K>(a: seq<T>, b: seq<T>, key: T -> K, k: K)
    ensures DropByKey(a + b, key, k) == DropByKey(a, key, k) + DropByKey(b, key, k)
  {
    if a == [] {
      assert a + b == b;
    } else {
      var head := if key(a[0]) == k then [] else [a[0]];
      assert (a + b)[0] == a[0];
      assert (a + b)[1..] == a[1..] + b;
      calc {
        DropByKey(a + b, key, k);
        head + DropByKey(a[1..] + b, key, k);
        { DropByKeyAppend(a[1..], b, key, k); }
        head + (DropByKey(a[1..], key, k) + DropByKey(b, key, k));
        (head + DropByKey(a[1..], key, k)) + DropByKey(b, key, k);
      }
    }
  }

  /** Keeping by a key that every element holds keeps everything. */
  lemma {:induction false} KeepByKeyAll<T, K>(s: seq<T>, key: T -> K, k: K)
    requires forall j :: 0 <= j < |s| ==> key(s[j]) == k
    ensures KeepByKey(s, key, k) == s
  {
    if s != [] {
      KeepByKeyAll(s[1..], key, k);
    }
  }

  /** Dropping by a key drops exactly the elements that hold it. */
  lemma {:induction false} DropByKeyMembers<T, K>(s: seq<T>, key: T -> K, k: K)
    ensures forall x :: x in DropByKey(s, key, k) <==> x in s && key(x) != k
  {
    if s != [] {
      DropByKeyMembers(s[1..], key, k);
      assert forall x :: x in s <==> x == s[0] || x in s[1..];
    }
  }

  /** Dropping by a key shortens the sequence exactly when some element holds the key. */
  lemma {:induction false} DropByKeyLength<T, K>(s: seq<T>, key: T -> K, k: K)
    ensures |DropByKey(s, key, k)| == |s| <==> forall j :: 0 <= j < |s| ==> key(s[j]) != k
    ensures (forall j :: 0 <= j < |s| ==> key(s[j]) != k) ==> DropByKey(s, key, k) == s
  {
    if s != [] {
      DropByKeyLength(s[1..], key, k);
      if key(s[0]) == k {
        assert |DropByKey(s, key, k)| < |s|;
      } else {
        assert forall j :: 1 <= j < |s| ==> s[j] == s[1..][j - 1];
      }
    }
  }

  /** With distinct keys, dropping a key that occurs at `i` removes exactly that element. */
  lemma {:induction false} DropByKeyDistinct<T, K>(s: seq<T>, key: T -> K, k: K, i: nat)
    requires DistinctBy(s, key)
    requires i < |s| && key(s[i]) == k
    ensures DropByKey(s, key, k) == s[..i] + s[i + 1..]
  {
    if i == 0 {
      DropByKeyLength(s[1..], key, k);
      assert s[..0] + s[1..] == s[1..];
    } else {
      DropByKeyDistinct(s[1..], key, k, i - 1);
      assert s[1..][..i - 1] + s[1..][i..] == s[1..i] + s[i + 1..];
      assert [s[0]] + (s[1..i] + s[i + 1..]) == s[..i] + s[i + 1..];
    }
  }

  /** Appending an element whose key is new keeps the keys distinct. */
  lemma DistinctAppend<T, K>(s: seq<T>, key: T -> K, x: T)
    requires DistinctBy(s, key)
    requires forall j :: 0 <= j < |s| ==> key(s[j]) != key(x)
    ensures DistinctBy(s + [x], key)
  {
    var t := s + [x];
    forall i, j | 0 <= i < j < |t|
      ensures key(t[i]) != key(t[j])
    {
      if j == |s| {
        assert t[i] == s[i];
      } else {
        assert t[i] == s[i] && t[j] == s[j];
      }
    }
  }

  /** Replacing an element by one with the same key keeps the keys distinct. */
  lemma DistinctUpdate<T, K>(s: seq<T>, key: T -> K, i: nat, x: T)
    requires DistinctBy(s, key)
    requires i < |s| && key(x) == key(s[i])
    ensures DistinctBy(s[i := x], key)
  {
    var t := s[i := x];
    forall a, b | 0 <= a < b < |t|
      ensures key(t[a]) != key(t[b])
    {
      assert key(t[a]) == key(s[a]) && key(t[b]) == key(s[b]);
    }
  }

  /** `filter(p)`: the elements satisfying `p`, in order. */
  function Filter<T>(s: seq<T>, p: T -> bool): (r: seq<T>)
    ensures |r| <= |s|
  {
    if s == [] then [] else (if p(s[0]) then [s[0]] else []) + Filter(s[1..], p)
  }

  /** What a filter keeps: exactly the elements of `s` that satisfy `p`. */
  lemma {:induction false} FilterMembers<T>(s: seq<T>, p: T -> bool)
    ensures forall x :: x in Filter(s, p) <==> x in s && p(x)
  {
    if s != [] {
      FilterMembers(s[1..], p);
      assert forall x :: x in s <==> x == s[0] || x in s[1..];
    }
  }

  /** Filtering distributes over concatenation, so it keeps the relative order of what it keeps. */
  lemma {:induction false} FilterAppend<T>(a: seq<T>, b: seq<T>, p: T -> bool)
    ensures Filter(a + b, p) == Filter(a, p) + Filter(b, p)
  {
    if a == [] {
      assert a + b == b;
    } else {
      var head := if p(a[0]) then [a[0]] else [];
      assert (a + b)[0] == a[0];
      assert (a + b)[1..] == a[1..] + b;
      calc {
        Filter(a + b, p);
        head + Filter(a[1..] + b, p);
        { FilterAppend(a[1..], b, p); }
        head + (Filter(a[1..], p) + Filter(b, p));
        (head + Filter(a[1..], p)) + Filter(b, p);
        Filter(a, p) + Filter(b, p);
      }
    }
  }

  /** A filter keeps everything exactly when every element passes. */
  lemma {:induction false} FilterKeepsAll<T>(s: seq<T>, p: T -> bool)
    ensures Filter(s, p) == s <==> forall i :: 0 <= i < |s| ==> p(s[i])
    ensures |Filter(s, p)| == |s| <==> forall i :: 0 <= i < |s| ==> p(s[i])
  {
    if s != [] {
      FilterKeepsAll(s[1..], p);
      if !p(s[0]) {
        assert |Filter(s, p)| < |s|;
      } else {
        assert forall i :: 1 <= i < |s| ==> s[i] == s[1..][i - 1];
      }
    }
  }

  /** Removing the one element that fails `p` removes exactly that element. */
  lemma FilterRemovesOne<T>(s: seq<T>, p: T -> bool, i: nat)
    requires i < |s| && !p(s[i])
    requires forall j :: 0 <= j < |s| && j != i ==> p(s[j])
    ensures Filter(s, p) == s[..i] + s[i + 1..]
    ensures |Filter(s, p)| == |s| - 1
  {
    var front, back := s[..i], s[i + 1..];
    assert forall j :: 0 <= j < |front| ==> p(front[j]);
    FilterKeepsAll(front, p);
    assert forall j :: 0 <= j < |back| ==> back[j] == s[i + 1 + j];
    FilterKeepsAll(back, p);
    assert s == front + [s[i]] + back;
    FilterDropsMiddle(front, s[i], back, p);
  }

  lemma FilterDropsMiddle<T>(front: seq<T>, x: T, back: seq<T>, p: T -> bool)
    requires Filter(front, p) == front && Filter(back, p) == back && !p(x)
    ensures Filter(front + [x] + back, p) == front + back
  {
    FilterAppend(front + [x], back, p);
    FilterAppend(front, [x], p);
    assert Filter([x], p) == [];
  }

  /** Filtering by a weaker predicate first changes nothing. */
  lemma {:induction false} FilterFilter<T>(s: seq<T>, weak: T -> bool, strong: T -> bool)
    requires forall x :: strong(x) ==> weak(x)
    ensures Filter(Filter(s, weak), strong) == Filter(s, strong)
  {
    if s != [] {
      FilterFilter(s[1..], weak, strong);
      var head := if weak(s[0]) then [s[0]] else [];
      FilterAppend(head, Filter(s[1..], weak), strong);
    }
  }

  lemma {:induction false} FilterNone<T>(s: seq<T>, p: T -> bool)
    requires forall i :: 0 <= i < |s| ==> !p(s[i])
    ensures Filter(s, p) == []
  {
    if s != [] {
      FilterNone(s[1..], p);
    }
  }

  /** Pairwise distinct keys. */
  ghost predicate DistinctBy<T, K>(s: seq<T>, key: T -> K) {
    forall i, j :: 0 <= i < j < |s| ==> key(s[i]) != key(s[j])
  }
}
