/** Taking a concatenation apart. */
module Sequences {
  lemma Assoc<T>(a: seq<T>, b: seq<T>, c: seq<T>)
    ensures a + b + c == a + (b + c)
  {
  }

  /** The head and the tail of a concatenation. */
  lemma AppendStep<T>(a: seq<T>, b: seq<T>)
    requires a != []
    ensures a + b != [] && (a + b)[0] == a[0] && (a + b)[1..] == a[1..] + b
  {
  }

  lemma DropAppend<T>(a: seq<T>, b: seq<T>, n: nat)
    requires n <= |a|
    ensures (a + b)[n..] == a[n..] + b
  {
  }

  predicate HasPrefix<T(==)>(s: seq<T>, prefix: seq<T>) {
    |prefix| <= |s| && s[..|prefix|] == prefix
  }

  function RemoveAt<T>(s: seq<T>, i: nat): (r: seq<T>)
    requires i < |s|
    ensures |r| == |s| - 1
    ensures forall k :: 0 <= k < |r| ==> r[k] == if k < i then s[k] else s[k + 1]
  {
    s[..i] + s[i + 1..]
  }

  /** Two listings of the same values in strictly ascending order are the same. */
  lemma {:induction false} AscendingIsUnique<T>(key: T -> int, a: seq<T>, b: seq<T>)
    requires forall i, j :: 0 <= i < j < |a| ==> key(a[i]) < key(a[j])
    requires forall i, j :: 0 <= i < j < |b| ==> key(b[i]) < key(b[j])
    requires forall i :: 0 <= i < |a| ==> a[i] in b
    requires forall i :: 0 <= i < |b| ==> b[i] in a
    ensures a == b
  {
    assert |a| > 0 ==> a[0] in b;
    assert |b| > 0 ==> b[0] in a;
    if |a| > 0 && |b| > 0 {
      assert a[0] == b[0];
      forall i | 0 <= i < |a[1..]| ensures a[1..][i] in b[1..] {
        assert a[i + 1] in b && a[i + 1] != b[0];
      }
      forall i | 0 <= i < |b[1..]| ensures b[1..][i] in a[1..] {
        assert b[i + 1] in a && b[i + 1] != a[0];
      }
      AscendingIsUnique(key, a[1..], b[1..]);
    }
  }

  function Mapped<A, B>(f: A -> B, a: seq<A>): seq<B> {
    seq(|a|, i requires 0 <= i < |a| => f(a[i]))
  }

  lemma MapAppend<A, B>(f: A -> B, a: seq<A>, b: seq<A>)
    ensures Mapped(f, a + b) == Mapped(f, a) + Mapped(f, b)
  {
  }

  lemma MappedHas<A, B>(f: A -> B, a: seq<A>, y: B)
    ensures y in Mapped(f, a) <==> exists x :: x in a && f(x) == y
  {
    if y in Mapped(f, a) {
      var i :| 0 <= i < |a| && Mapped(f, a)[i] == y;
      assert a[i] in a;
    }
    if x :| x in a && f(x) == y {
      var i :| 0 <= i < |a| && a[i] == x;
      assert Mapped(f, a)[i] == y;
    }
  }

  /** No two places hold the same value. */
  ghost predicate Distinct<A>(a: seq<A>) {
    forall i, j :: 0 <= i < j < |a| ==> a[i] != a[j]
  }

  lemma DistinctMapped<A, B>(f: A -> B, a: seq<A>)
    requires Distinct(a) && forall x, y :: f(x) == f(y) ==> x == y
    ensures Distinct(Mapped(f, a))
  {
  }

  lemma DistinctAppend<A>(a: seq<A>, b: seq<A>)
    requires Distinct(a) && Distinct(b) && forall x :: x in a ==> x !in b
    ensures Distinct(a + b)
  {
    forall i, j | 0 <= i < j < |a + b| ensures (a + b)[i] != (a + b)[j] {
      if i < |a| <= j {
        assert a[i] in a && b[j - |a|] in b;
      }
    }
  }

  /** The different values that satisfy a test. */
  function Having<A(==)>(has: A -> bool, a: seq<A>): set<A> {
    set x | x in a && has(x)
  }

  lemma HavingNext<A>(has: A -> bool, a: seq<A>, x: A)
    ensures |Having(has, a + [x])| == |Having(has, a)| + if has(x) && x !in a then 1 else 0
  {
    var before, after := Having(has, a), Having(has, a + [x]);
    assert forall y :: y in a + [x] <==> y in a || y == x;
    if has(x) && x !in a {
      assert after == before + {x} && x !in before;
    } else {
      assert after == before;
    }
  }

  lemma NoAppend<T>(b: seq<T>)
    ensures [] + b == b && b + [] == b
  {
  }
}
