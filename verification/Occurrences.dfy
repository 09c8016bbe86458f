/**
 Numbering by occurrence, as mutantIdentities of internal/engine/mutantid.go
 does it: items with the same text are told apart by how many different items
 with that text came before. Keys and texts are left abstract here.
*/
module Occurrences {
  import opened Wrappers

  datatype Item<K, T> = Item(key: K, text: T)

  /** What an item is known by: its text and its place among the items with that text. */
  datatype Place<T> = Place(text: T, occurrence: nat)

  /** The i-th item is not a repetition. */
  predicate First<K(==), T>(items: seq<Item<K, T>>, i: nat)
    requires i < |items|
  {
    forall j :: 0 <= j < i ==> items[j].key != items[i].key
  }

  /** How many different items before the i-th have this text. */
  function Rank<K(==), T(==)>(items: seq<Item<K, T>>, i: nat, text: T): nat
    requires i <= |items|
  {
    if i == 0 then 0
    else Rank(items, i - 1, text) + if First(items, i - 1) && items[i - 1].text == text then 1 else 0
  }

  function PlaceOf<K(==), T(==)>(items: seq<Item<K, T>>, i: nat): Place<T>
    requires i < |items|
  {
    Place(items[i].text, Rank(items, i, items[i].text))
  }

  function Keys<K, T>(items: seq<Item<K, T>>): set<K> {
    set i | 0 <= i < |items| :: items[i].key
  }

  /** places holds the place of each item under its key, and nothing else. */
  ghost predicate Numbers<K, T>(items: seq<Item<K, T>>, places: map<K, Place<T>>) {
    places.Keys == Keys(items) && Placed(items, places)
  }

  ghost predicate Placed<K, T>(items: seq<Item<K, T>>, places: map<K, Place<T>>) {
    forall i :: 0 <= i < |items| && First(items, i) ==>
        items[i].key in places && places[items[i].key] == PlaceOf(items, i)
  }

  function Count<T(==)>(occurrences: map<T, nat>, text: T): nat {
    if text in occurrences then occurrences[text] else 0
  }

  /** The counters after the items. */
  ghost predicate Counts<K, T(!new)>(items: seq<Item<K, T>>, occurrences: map<T, nat>) {
    forall text :: Count(occurrences, text) == Rank(items, |items|, text)
  }

  lemma {:induction false} RankOfPrefix<K, T>(items: seq<Item<K, T>>, x: Item<K, T>, i: nat, text: T)
    requires i <= |items|
    ensures Rank(items + [x], i, text) == Rank(items, i, text)
  {
    if i > 0 {
      RankOfPrefix(items, x, i - 1, text);
      assert forall j :: 0 <= j < i ==> (items + [x])[j] == items[j];
      assert First(items + [x], i - 1) == First(items, i - 1);
    }
  }

  lemma RankNext<K, T>(items: seq<Item<K, T>>, x: Item<K, T>, text: T)
    ensures Rank(items + [x], |items| + 1, text) ==
      Rank(items, |items|, text) + if First(items + [x], |items|) && x.text == text then 1 else 0
  {
    RankOfPrefix(items, x, |items|, text);
    assert (items + [x])[|items|] == x;
  }

  /** An item at the end changes no key and no place before it. */
  lemma PlacesOfPrefix<K, T>(items: seq<Item<K, T>>, x: Item<K, T>)
    ensures Keys(items + [x]) == Keys(items) + {x.key}
    ensures First(items + [x], |items|) <==> x.key !in Keys(items)
    ensures forall i :: 0 <= i < |items| ==> (items + [x])[i] == items[i]
    ensures forall i :: 0 <= i < |items| ==> (First(items + [x], i) <==> First(items, i))
    ensures forall i :: 0 <= i < |items| ==> PlaceOf(items + [x], i) == PlaceOf(items, i)
    ensures PlaceOf(items + [x], |items|) == Place(x.text, Rank(items, |items|, x.text))
  {
    var more := items + [x];
    assert more[|items|] == x;
    forall i | 0 <= i <= |items| {
      RankOfPrefix(items, x, i, more[i].text);
    }
    if x.key in Keys(items) {
      var i :| 0 <= i < |items| && items[i].key == x.key;
      assert more[i].key == more[|items|].key;
    }
    if !First(more, |items|) {
      var i :| 0 <= i < |items| && more[i].key == x.key;
      assert items[i].key == x.key;
    }
    forall k | k in Keys(items) ensures k in Keys(more) {
      var i :| 0 <= i < |items| && items[i].key == k;
      assert more[i].key == k;
    }
  }

  lemma RepeatKeepsPlaces<K, T>(items: seq<Item<K, T>>, x: Item<K, T>, places: map<K, Place<T>>)
    requires Numbers(items, places) && x.key in places
    ensures Numbers(items + [x], places) && !First(items + [x], |items|)
  {
    PlacesOfPrefix(items, x);
  }

  lemma NewItemExtendsPlaces<K, T>(items: seq<Item<K, T>>, x: Item<K, T>, places: map<K, Place<T>>)
    requires Numbers(items, places) && x.key !in places
    ensures First(items + [x], |items|)
    ensures Numbers(items + [x], places[x.key := Place(x.text, Rank(items, |items|, x.text))])
  {
    var more, next := items + [x], places[x.key := Place(x.text, Rank(items, |items|, x.text))];
    PlacesOfPrefix(items, x);
    forall i | 0 <= i < |more| && First(more, i)
      ensures more[i].key in next && next[more[i].key] == PlaceOf(more, i)
    {
      if i < |items| {
        OldPlaceStays(items, x, places, i);
      }
    }
  }

  lemma OldPlaceStays<K, T>(items: seq<Item<K, T>>, x: Item<K, T>, places: map<K, Place<T>>, i: nat)
    requires Numbers(items, places) && x.key !in places && i < |items| && First(items, i)
    ensures items[i].key != x.key && items[i].key in places && places[items[i].key] == PlaceOf(items, i)
  {
    assert items[i].key in Keys(items);
  }

  /** The items a walk could identify. */
  function Present<X>(xs: seq<Option<X>>): seq<X> {
    if xs == [] then [] else (if xs[0].Some? then [xs[0].value] else []) + Present(xs[1..])
  }

  lemma {:induction false} PresentSnoc<X>(xs: seq<Option<X>>, x: Option<X>)
    ensures Present(xs + [x]) == if x.Some? then Present(xs) + [x.value] else Present(xs)
  {
    if xs == [] {
      assert [x][1..] == [];
    } else {
      PresentSnoc(xs[1..], x);
      assert (xs + [x])[0] == xs[0] && (xs + [x])[1..] == xs[1..] + [x];
    }
  }

  lemma CountsNext<K, T(!new)>(items: seq<Item<K, T>>, x: Item<K, T>, occurrences: map<T, nat>)
    requires Counts(items, occurrences)
    ensures First(items + [x], |items|) ==> Counts(items + [x], occurrences[x.text := Count(occurrences, x.text) + 1])
    ensures !First(items + [x], |items|) ==> Counts(items + [x], occurrences)
  {
    forall text ensures Rank(items + [x], |items| + 1, text) ==
      Count(occurrences, text) + if First(items + [x], |items|) && x.text == text then 1 else 0
    {
      RankNext(items, x, text);
    }
    var next := occurrences[x.text := Count(occurrences, x.text) + 1];
    assert forall text :: Count(next, text) == Count(occurrences, text) + if x.text == text then 1 else 0;
    assert |items + [x]| == |items| + 1;
  }

  method Number<K(==), T(==, !new)>(xs: seq<Option<Item<K, T>>>) returns (places: map<K, Place<T>>)
    ensures Numbers(Present(xs), places)
  {
    places := map[];
    var occurrences: map<T, nat> := map[];
    ghost var items: seq<Item<K, T>> := [];
    for i := 0 to |xs|
      invariant items == Present(xs[..i]) && Numbers(items, places) && Counts(items, occurrences)
    {
      assert xs[..i + 1] == xs[..i] + [xs[i]];
      PresentSnoc(xs[..i], xs[i]);
      if xs[i].Some? {
        var x := xs[i].value;
        CountsNext(items, x, occurrences);
        if x.key !in places {
          NewItemExtendsPlaces(items, x, places);
          assert Count(occurrences, x.text) == Rank(items, |items|, x.text);
          places := places[x.key := Place(x.text, Count(occurrences, x.text))];
          occurrences := occurrences[x.text := Count(occurrences, x.text) + 1];
        } else {
          RepeatKeepsPlaces(items, x, places);
        }
        items := items + [x];
      }
    }
    assert xs[..|xs|] == xs;
  }

  // ----- the numbers of one text run from 0, in order -----

  lemma {:induction false} RankGrows<K, T>(items: seq<Item<K, T>>, i: nat, j: nat, text: T)
    requires i <= j <= |items|
    ensures Rank(items, i, text) <= Rank(items, j, text)
    ensures i < j && First(items, i) && items[i].text == text ==> Rank(items, i, text) < Rank(items, j, text)
    decreases j
  {
    if i < j {
      RankGrows(items, i, j - 1, text);
    }
  }

  /** Each number below the count of a text belongs to an item with that text,
      and the numbers follow the order of the items. */
  lemma {:induction false} NumbersAreDense<K, T>(items: seq<Item<K, T>>, n: nat, text: T, r: nat)
    requires n <= |items| && r < Rank(items, n, text)
    ensures exists i :: 0 <= i < n && First(items, i) && items[i].text == text && Rank(items, i, text) == r
    ensures forall i, j :: 0 <= i < j < n && First(items, i) && items[i].text == text ==>
            Rank(items, i, text) < Rank(items, j, text)
    decreases n
  {
    if r < Rank(items, n - 1, text) {
      NumbersAreDense(items, n - 1, text, r);
    } else {
      assert First(items, n - 1) && items[n - 1].text == text && Rank(items, n - 1, text) == r;
    }
    forall i, j | 0 <= i < j < n && First(items, i) && items[i].text == text
      ensures Rank(items, i, text) < Rank(items, j, text)
    {
      RankGrows(items, i, j, text);
    }
  }

  /** The first item with the key. */
  function FirstIndex<K(==), T>(items: seq<Item<K, T>>, key: K): (a: nat)
    requires exists i :: 0 <= i < |items| && items[i].key == key
    ensures a < |items| && items[a].key == key && First(items, a)
  {
    if items[0].key == key then 0
    else
      assert exists i :: 0 <= i < |items[1..]| && items[1..][i].key == key by {
        var i :| 0 <= i < |items| && items[i].key == key;
        assert items[1..][i - 1].key == key;
      }
      var a := FirstIndex(items[1..], key);
      assert forall j :: 1 <= j < a + 1 ==> items[j] == items[1..][j - 1];
      a + 1
  }

  /** The place of the item that is numbered under the key. */
  function PlaceIn<K(==), T(==)>(items: seq<Item<K, T>>, key: K): Place<T>
    requires key in Keys(items)
  {
    PlaceOf(items, FirstIndex(items, key))
  }

  lemma FirstIndexIs<K, T>(items: seq<Item<K, T>>, a: nat)
    requires a < |items| && First(items, a)
    ensures items[a].key in Keys(items) && FirstIndex(items, items[a].key) == a
  {
    var b := FirstIndex(items, items[a].key);
    assert !(a < b) && !(b < a);
  }

  lemma NumbersGivePlaces<K, T>(items: seq<Item<K, T>>, places: map<K, Place<T>>, key: K)
    requires Numbers(items, places) && key in Keys(items)
    ensures key in places && places[key] == PlaceIn(items, key)
  {
  }

  /** Different keys, different places. */
  lemma PlacesAreDistinct<K, T>(items: seq<Item<K, T>>, k: K, l: K)
    requires k in Keys(items) && l in Keys(items) && k != l
    ensures PlaceIn(items, k) != PlaceIn(items, l)
  {
    var a, b := FirstIndex(items, k), FirstIndex(items, l);
    if items[a].text == items[b].text {
      if a < b {
        RankGrows(items, a, b, items[a].text);
      } else {
        RankGrows(items, b, a, items[a].text);
      }
    }
  }

  lemma TotalNext<K, T>(items: seq<Item<K, T>>, x: Item<K, T>, text: T)
    ensures Total(items + [x], text) == Total(items, text) + if x.key !in Keys(items) && x.text == text then 1 else 0
  {
    PlacesOfPrefix(items, x);
    RankNext(items, x, text);
  }

  lemma PlaceOfLast<K, T>(items: seq<Item<K, T>>, x: Item<K, T>)
    requires x.key !in Keys(items)
    ensures x.key in Keys(items + [x]) && PlaceIn(items + [x], x.key) == Place(x.text, Total(items, x.text))
  {
    PlacesOfPrefix(items, x);
    FirstIndexIs(items + [x], |items|);
  }

  // ----- other items in front -----

  /** No item of one list has the key of an item of the other. */
  ghost predicate KeysApart<K, T>(a: seq<Item<K, T>>, b: seq<Item<K, T>>) {
    forall i, j :: 0 <= i < |a| && 0 <= j < |b| ==> a[i].key != b[j].key
  }

  /** How many different items have the text. */
  function Total<K(==), T(==)>(items: seq<Item<K, T>>, text: T): nat {
    Rank(items, |items|, text)
  }

  lemma {:induction false} RankInFront<K, T>(front: seq<Item<K, T>>, items: seq<Item<K, T>>, k: nat, text: T)
    requires k <= |front|
    ensures Rank(front + items, k, text) == Rank(front, k, text)
    ensures k < |front| ==> (First(front + items, k) <==> First(front, k))
  {
    var all := front + items;
    assert forall j :: 0 <= j < |front| ==> all[j] == front[j];
    if k > 0 {
      RankInFront(front, items, k - 1, text);
    }
  }

  lemma FirstBehind<K, T>(front: seq<Item<K, T>>, items: seq<Item<K, T>>, i: nat)
    requires KeysApart(front, items) && i < |items|
    ensures First(front + items, |front| + i) <==> First(items, i)
  {
    var all := front + items;
    assert all[|front| + i] == items[i];
    if First(items, i) {
      forall j | 0 <= j < |front| + i ensures all[j].key != all[|front| + i].key {
        if j >= |front| {
          assert all[j] == items[j - |front|];
        }
      }
    }
    if First(all, |front| + i) {
      forall j | 0 <= j < i ensures items[j].key != items[i].key {
        assert all[|front| + j] == items[j];
      }
    }
  }

  lemma {:induction false} RankBehind<K, T>(front: seq<Item<K, T>>, items: seq<Item<K, T>>, k: nat, text: T)
    requires KeysApart(front, items) && k <= |items|
    ensures Rank(front + items, |front| + k, text) == Total(front, text) + Rank(items, k, text)
  {
    if k == 0 {
      RankInFront(front, items, |front|, text);
    } else {
      RankBehind(front, items, k - 1, text);
      FirstBehind(front, items, k - 1);
      assert (front + items)[|front| + k - 1] == items[k - 1];
    }
  }

  /** Two items that share nothing are each the first with their text. */
  lemma TwoItems<K, T>(x: Item<K, T>, y: Item<K, T>)
    requires x.key != y.key && x.text != y.text
    ensures x.key in Keys([x, y]) && PlaceIn([x, y], x.key) == Place(x.text, 0)
    ensures y.key in Keys([x, y]) && PlaceIn([x, y], y.key) == Place(y.text, 0)
  {
    FirstIndexIs([x, y], 0);
    FirstIndexIs([x, y], 1);
    assert Rank([x, y], 1, y.text) == Rank([x, y], 0, y.text);
  }

  /** Items in front move the numbers of a text up by as many as they hold with
      that text, and change nothing else. */
  lemma PlaceBehind<K, T>(front: seq<Item<K, T>>, items: seq<Item<K, T>>, key: K)
    requires KeysApart(front, items) && key in Keys(items)
    ensures key in Keys(front + items)
    ensures var p := PlaceIn(items, key);
      PlaceIn(front + items, key) == Place(p.text, Total(front, p.text) + p.occurrence)
  {
    var a := FirstIndex(items, key);
    FirstBehind(front, items, a);
    assert (front + items)[|front| + a] == items[a];
    FirstIndexIs(front + items, |front| + a);
    RankBehind(front, items, a, items[a].text);
  }

  /** Items behind change no place in front of them. */
  lemma PlaceInFront<K, T>(front: seq<Item<K, T>>, items: seq<Item<K, T>>, key: K)
    requires key in Keys(front)
    ensures key in Keys(front + items) && PlaceIn(front + items, key) == PlaceIn(front, key)
  {
    var a := FirstIndex(front, key);
    RankInFront(front, items, a, front[a].text);
    assert (front + items)[a] == front[a];
    FirstIndexIs(front + items, a);
  }

  /** The same texts in the same order, under keys that are equal where the others are. */
  ghost predicate SameShape<K, T>(items: seq<Item<K, T>>, moved: seq<Item<K, T>>) {
    && |moved| == |items|
    && (forall i :: 0 <= i < |items| ==> items[i].text == moved[i].text)
    && (forall i, j :: 0 <= i < |items| && 0 <= j < |items| ==>
        (items[i].key == items[j].key <==> moved[i].key == moved[j].key))
  }

  lemma {:induction false} RankOfMoved<K, T>(items: seq<Item<K, T>>, moved: seq<Item<K, T>>, k: nat, text: T)
    requires SameShape(items, moved) && k <= |items|
    ensures Rank(moved, k, text) == Rank(items, k, text)
  {
    if k > 0 {
      RankOfMoved(items, moved, k - 1, text);
    }
  }

  lemma PlaceOfMoved<K, T>(items: seq<Item<K, T>>, moved: seq<Item<K, T>>, k: nat)
    requires SameShape(items, moved) && k < |items|
    ensures items[k].key in Keys(items) && moved[k].key in Keys(moved)
    ensures PlaceIn(moved, moved[k].key) == PlaceIn(items, items[k].key)
  {
    var a := FirstIndex(items, items[k].key);
    RankOfMoved(items, moved, a, items[a].text);
    assert First(moved, a);
    FirstIndexIs(moved, a);
  }

  /** Whatever stands in front of the items before and after they move, a place
      stays the same exactly when as many different items with its text do. */
  lemma PlacesSurviveIff<K, T>(front: seq<Item<K, T>>, items: seq<Item<K, T>>, front': seq<Item<K, T>>,
                               moved: seq<Item<K, T>>, k: nat)
    requires SameShape(items, moved) && KeysApart(front, items) && KeysApart(front', moved) && k < |items|
    ensures items[k].key in Keys(front + items) && moved[k].key in Keys(front' + moved)
    ensures var p, p' := PlaceIn(front + items, items[k].key), PlaceIn(front' + moved, moved[k].key);
      && p'.text == p.text
      && p'.occurrence + Total(front, p.text) == p.occurrence + Total(front', p.text)
      && (p' == p <==> Total(front', p.text) == Total(front, p.text))
  {
    PlaceOfMoved(items, moved, k);
    PlaceBehind(front, items, items[k].key);
    PlaceBehind(front', moved, moved[k].key);
  }

  lemma {:induction false} NoneIsCounted<K, T>(items: seq<Item<K, T>>, n: nat, text: T)
    requires n <= |items|
    ensures Rank(items, n, text) == 0 <==> forall i :: 0 <= i < n && First(items, i) ==> items[i].text != text
  {
    if n > 0 {
      NoneIsCounted(items, n - 1, text);
    }
  }
}
