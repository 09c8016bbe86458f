/** The parts of Go's sort package the program leans on. */
module GoSort {
  import opened Sequences

  ghost predicate SortedBy<T>(key: T -> int, s: seq<T>) {
    forall i, j :: 0 <= i < j < |s| ==> key(s[i]) <= key(s[j])
  }

  /** Puts x where sort.Slice could: any place its key allows. */
  function Insert<T>(key: T -> int, x: T, s: seq<T>): (r: seq<T>)
    ensures multiset(r) == multiset(s) + multiset{x}
  {
    if s == [] then [x]
    else if key(x) <= key(s[0]) then [x] + s
    else
      assert s == [s[0]] + s[1..];
      [s[0]] + Insert(key, x, s[1..])
  }

  function Sort<T>(key: T -> int, s: seq<T>): (r: seq<T>)
    ensures multiset(r) == multiset(s)
  {
    if s == [] then [] else
    assert s == [s[0]] + s[1..];
    Insert(key, s[0], Sort(key, s[1..]))
  }

  lemma {:induction false} SameElements<T>(a: seq<T>, b: seq<T>)
    requires multiset(a) == multiset(b)
    ensures |a| == |b|
    ensures forall x :: x in a <==> x in b
  {
    assert |multiset(a)| == |a| && |multiset(b)| == |b|;
    forall x ensures x in a <==> x in b {
      assert x in multiset(a) <==> x in multiset(b);
    }
  }

  lemma {:induction false} InsertIsSorted<T>(key: T -> int, x: T, s: seq<T>)
    requires SortedBy(key, s)
    ensures SortedBy(key, Insert(key, x, s))
  {
    if s != [] && key(x) > key(s[0]) {
      var rest := Insert(key, x, s[1..]);
      InsertIsSorted(key, x, s[1..]);
      forall y | y in rest ensures key(s[0]) <= key(y) {
        if y != x {
          assert y in multiset(rest) && y in multiset(s[1..]);
          var i :| 1 <= i < |s| && s[i] == y;
        }
      }
    }
  }

  lemma {:induction false} SortIsSorted<T>(key: T -> int, s: seq<T>)
    ensures SortedBy(key, Sort(key, s))
  {
    if s != [] {
      SortIsSorted(key, s[1..]);
      InsertIsSorted(key, s[0], Sort(key, s[1..]));
    }
  }

  lemma {:induction false} DistinctCounts<T>(s: seq<T>)
    ensures Distinct(s) <==> forall x :: multiset(s)[x] <= 1
  {
    if s != [] {
      assert s == [s[0]] + s[1..];
      DistinctCounts(s[1..]);
      if Distinct(s) {
        assert s[0] !in s[1..];
      }
      if forall x :: multiset(s)[x] <= 1 {
        assert multiset(s)[s[0]] == 1 + multiset(s[1..])[s[0]];
        assert s[0] !in multiset(s[1..]);
        assert forall x :: multiset(s[1..])[x] <= multiset(s)[x];
      }
    }
  }

  /** sort.Search: the least index in [0, n) at which f holds, or n; f must not
      fall back from true to false. */
  method Search(n: nat, f: nat --> bool) returns (i: nat)
    requires forall k: nat :: k < n ==> f.requires(k)
    requires forall a: nat, b: nat :: a < b < n && f(a) ==> f(b)
    ensures i <= n
    ensures forall k: nat :: k < i ==> !f(k)
    ensures forall k: nat :: i <= k < n ==> f(k)
  {
    i := 0;
    var j := n;
    while i < j
      invariant i <= j <= n
      invariant forall k: nat :: k < i ==> !f(k)
      invariant forall k: nat :: j <= k < n ==> f(k)
    {
      var h := (i + j) / 2;
      if !f(h) {
        i := h + 1;
      } else {
        j := h;
      }
    }
  }

  /** sort.Search for the first element of a sorted list whose key reaches `from`. */
  method SearchFrom<T>(key: T -> int, s: seq<T>, from: int) returns (i: nat)
    requires SortedBy(key, s)
    ensures i <= |s|
    ensures forall k :: 0 <= k < i ==> key(s[k]) < from
    ensures forall k :: i <= k < |s| ==> from <= key(s[k])
  {
    var reached := (k: nat) requires k < |s| => key(s[k]) >= from;
    i := Search(|s|, reached);
    forall k | 0 <= k < i ensures key(s[k]) < from {
      assert !reached(k);
    }
    forall k | i <= k < |s| ensures from <= key(s[k]) {
      assert reached(k);
    }
  }
}
