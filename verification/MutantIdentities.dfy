/**
 mutantIdentities of internal/engine/mutantid.go: the stable identity of every
 edit one mutator makes in one file, taken before any filter drops an edit.
*/
module MutantIdentities {
  import opened Sequences
  import opened Wrappers
  import opened LineDiff
  import opened Edits
  import opened TextBelow
  import opened StableId
  import opened Occurrences

  /** The key and the changed text of an edit, unless it cannot be captured. */
  function IdentityText(original: string, e: Edit): Option<Item<string, string>> {
    match EditLines(original, e)
    case None => None
    case Some(lines) => Some(Item(EditKey(e), FormatChangedLines(lines.0, lines.1)))
  }

  function TextAt(original: string): Edit -> Option<Item<string, string>> {
    (e: Edit) => IdentityText(original, e)
  }

  function IdentityTexts(original: string, edits: seq<Edit>): seq<Option<Item<string, string>>> {
    Mapped(TextAt(original), edits)
  }

  /** The identified edits of a walk, in order. */
  function Identified(original: string, edits: seq<Edit>): seq<Item<string, string>> {
    Present(IdentityTexts(original, edits))
  }

  function IdOf(file: string, name: string, place: Place<string>): string {
    IdentityKey(file, name, place.text, place.occurrence)
  }

  /** The identity of each identified edit, under its key. */
  function Ids(file: string, name: string, original: string, edits: seq<Edit>): map<string, string> {
    var items := Identified(original, edits);
    map k | k in Keys(items) :: IdOf(file, name, PlaceIn(items, k))
  }

  method AssignIdentities(file: string, name: string, original: string, edits: seq<Edit>)
    returns (ids: map<string, string>)
    ensures ids == Ids(file, name, original, edits)
  {
    var places := Number(IdentityTexts(original, edits));
    ids := map k | k in places :: IdOf(file, name, places[k]);
    forall k | k in places ensures places[k] == PlaceIn(Identified(original, edits), k) {
      NumbersGivePlaces(Identified(original, edits), places, k);
    }
  }

  // ----- which edit an item comes from -----

  /** The place in the list of the i-th value that is present. */
  function PresentAt<X>(xs: seq<Option<X>>, i: nat): (n: nat)
    requires i < |Present(xs)|
    ensures n < |xs| && xs[n] == Some(Present(xs)[i])
  {
    if xs[0].None? then 1 + PresentAt(xs[1..], i)
    else if i == 0 then 0
    else 1 + PresentAt(xs[1..], i - 1)
  }

  lemma {:induction false} PresentHas<X>(xs: seq<Option<X>>, k: nat) returns (i: nat)
    requires k < |xs| && xs[k].Some?
    ensures i < |Present(xs)| && Present(xs)[i] == xs[k].value && PresentAt(xs, i) == k
  {
    if k == 0 {
      i := 0;
    } else {
      i := PresentHas(xs[1..], k - 1);
      if xs[0].Some? {
        i := i + 1;
      }
    }
  }

  /** The edit of the i-th item. */
  function EditAt(original: string, edits: seq<Edit>, i: nat): (d: Edit)
    requires i < |Identified(original, edits)|
    ensures d in edits && d.Valid(original) && IdentityText(original, d) == Some(Identified(original, edits)[i])
    ensures Identified(original, edits)[i].key == EditKey(d)
  {
    edits[PresentAt(IdentityTexts(original, edits), i)]
  }

  lemma ItemOf(original: string, edits: seq<Edit>, e: Edit) returns (i: nat)
    requires e in edits && e.Valid(original)
    ensures i < |Identified(original, edits)| && Some(Identified(original, edits)[i]) == IdentityText(original, e)
  {
    var texts := IdentityTexts(original, edits);
    var k :| 0 <= k < |edits| && edits[k] == e;
    assert texts[k] == IdentityText(original, e);
    i := PresentHas(texts, k);
  }

  /** An edit is numbered under its own text. */
  lemma OwnPlace(original: string, edits: seq<Edit>, e: Edit)
    requires e in edits && e.Valid(original)
    ensures EditKey(e) in Keys(Identified(original, edits))
    ensures PlaceIn(Identified(original, edits), EditKey(e)).text == IdentityText(original, e).value.text
  {
    var items := Identified(original, edits);
    var i := ItemOf(original, edits, e);
    assert items[i].key == EditKey(e);
    var a := FirstIndex(items, EditKey(e));
    EditKeyInjective(EditAt(original, edits, a), e);
  }

  function Occurrence(original: string, edits: seq<Edit>, e: Edit): nat
    requires e in edits && e.Valid(original)
  {
    OwnPlace(original, edits, e);
    PlaceIn(Identified(original, edits), EditKey(e)).occurrence
  }

  lemma IdIs(file: string, name: string, original: string, edits: seq<Edit>, e: Edit)
    requires e in edits && e.Valid(original)
    ensures EditKey(e) in Ids(file, name, original, edits)
    ensures Ids(file, name, original, edits)[EditKey(e)] ==
            IdOf(file, name, Place(IdentityText(original, e).value.text, Occurrence(original, edits, e)))
  {
    OwnPlace(original, edits, e);
  }

  // ----- what an occurrence counts -----

  function HasText(original: string, text: string): Edit -> bool {
    (d: Edit) => d.Valid(original) && IdentityText(original, d).value.text == text
  }

  /** The different edits with this text. */
  function EditsWith(original: string, edits: seq<Edit>, text: string): set<Edit> {
    Having(HasText(original, text), edits)
  }

  lemma IdentifiedNext(original: string, edits: seq<Edit>, d: Edit)
    ensures d.Valid(original) ==>
      Identified(original, edits + [d]) == Identified(original, edits) + [IdentityText(original, d).value]
    ensures !d.Valid(original) ==> Identified(original, edits + [d]) == Identified(original, edits)
  {
    MapAppend(TextAt(original), edits, [d]);
    assert Mapped(TextAt(original), [d]) == [IdentityText(original, d)];
    PresentSnoc(IdentityTexts(original, edits), IdentityText(original, d));
  }

  /** An identified edit has a new key exactly when it is not there yet. */
  lemma KeyIsNewIff(original: string, edits: seq<Edit>, d: Edit)
    requires d.Valid(original)
    ensures EditKey(d) in Keys(Identified(original, edits)) <==> d in edits
  {
    if d in edits {
      OwnPlace(original, edits, d);
    }
    var items := Identified(original, edits);
    if i :| 0 <= i < |items| && items[i].key == EditKey(d) {
      EditKeyInjective(EditAt(original, edits, i), d);
    }
  }

  lemma TotalStep(original: string, edits: seq<Edit>, d: Edit, text: string)
    ensures Total(Identified(original, edits + [d]), text) ==
      Total(Identified(original, edits), text) + if HasText(original, text)(d) && d !in edits then 1 else 0
  {
    IdentifiedNext(original, edits, d);
    if d.Valid(original) {
      KeyIsNewIff(original, edits, d);
      TotalNext(Identified(original, edits), IdentityText(original, d).value, text);
    }
  }

  lemma {:induction false} TotalIsNumber(original: string, edits: seq<Edit>, text: string)
    ensures Total(Identified(original, edits), text) == |EditsWith(original, edits, text)|
  {
    if edits != [] {
      var front, d := edits[..|edits| - 1], edits[|edits| - 1];
      assert edits == front + [d];
      TotalIsNumber(original, front, text);
      TotalStep(original, front, d, text);
      HavingNext(HasText(original, text), front, d);
    }
  }

  /** The number of an edit is that of the different edits with its text in front of
      it in the walk: 0 for the first with a text. */
  lemma OccurrenceIsNumber(original: string, edits: seq<Edit>, e: Edit, k: nat)
    requires k < |edits| && edits[k] == e && e !in edits[..k] && e.Valid(original)
    ensures Occurrence(original, edits, e) ==
            |EditsWith(original, edits[..k], IdentityText(original, e).value.text)|
  {
    assert edits == edits[..k] + [e] + edits[k + 1..];
    PlaceOfNew(original, edits[..k], e, edits[k + 1..]);
    TotalIsNumber(original, edits[..k], IdentityText(original, e).value.text);
  }

  lemma PlaceOfNew(original: string, front: seq<Edit>, e: Edit, behind: seq<Edit>)
    requires e !in front && e.Valid(original)
    ensures Occurrence(original, front + [e] + behind, e) ==
            Total(Identified(original, front), IdentityText(original, e).value.text)
  {
    var items, x := Identified(original, front), IdentityText(original, e).value;
    IdentifiedNext(original, front, e);
    KeyIsNewIff(original, front, e);
    PlaceOfLast(items, x);
    IdentifiedAppend(original, front + [e], behind);
    PlaceInFront(items + [x], Identified(original, behind), EditKey(e));
  }

  /** The identity of an edit spelled out: the file, the mutator, the lines it
      removes and those it adds, and its number unless it is the first with them. */
  lemma IdIsSpelled(file: string, name: string, original: string, edits: seq<Edit>, e: Edit)
    requires e in edits && e.Valid(original)
    requires var (removed, added) := EditLines(original, e).value; NoHeader('-', removed) && NoHeader('+', added)
    ensures var (removed, added) := EditLines(original, e).value;
      var first := file + ['\0'] + (name + ['\0'] + (Join(removed) + ['\0'] + Join(added)));
      var ids, n := Ids(file, name, original, edits), Occurrence(original, edits, e);
      && EditKey(e) in ids
      && ids[EditKey(e)] == if n == 0 then first else first + ['\0'] + Decimal(n)
  {
    var (removed, added) := EditLines(original, e).value;
    IdIs(file, name, original, edits, e);
    ChangedLinesAreLines(original, e);
    HashedText(file, name, removed, added, Occurrence(original, edits, e));
  }

  // ----- when two edits of a file share an identity -----

  /** The lines an edit removes and adds, without those that read as diff headers. */
  function VisibleLines(original: string, e: Edit): (seq<Line>, seq<Line>)
    requires e.Valid(original)
  {
    var (removed, added) := EditLines(original, e).value;
    (Visible('-', removed), Visible('+', added))
  }

  predicate CleanEdit(original: string, e: Edit)
    requires e.Valid(original)
  {
    var (removed, added) := EditLines(original, e).value;
    Clean(removed) && Clean(added)
  }

  predicate PlainEdit(original: string, e: Edit)
    requires e.Valid(original)
  {
    var (removed, added) := EditLines(original, e).value;
    Plain(removed, added)
  }

  /** The changed lines are lines of the files. */
  lemma ChangedLinesAreLines(original: string, e: Edit)
    requires e.Valid(original)
    ensures var (removed, added) := EditLines(original, e).value; NewlineFree(removed) && NewlineFree(added)
  {
    var b, a := SplitDiffLines(original), SplitDiffLines(e.Materialize(original).value);
    SplitIsNewlineFree(original);
    SplitIsNewlineFree(e.Materialize(original).value);
    ChangedLinesComeFrom(b, a);
    var (removed, added) := ChangedLines(b, a);
    NewlineFreePart(removed, b);
    NewlineFreePart(added, a);
  }

  /** Two edits of one mutator in one file share an identity exactly when their
      visible lines and their occurrences are the same. */
  lemma IdsCoincideIff(file: string, name: string, original: string, edits: seq<Edit>, e: Edit, f: Edit)
    requires '\0' !in file && '\0' !in name
    requires e in edits && f in edits && e.Valid(original) && f.Valid(original)
    requires CleanEdit(original, e) && CleanEdit(original, f)
    ensures var ids := Ids(file, name, original, edits);
      && EditKey(e) in ids && EditKey(f) in ids
      && (ids[EditKey(e)] == ids[EditKey(f)] <==>
            && VisibleLines(original, e) == VisibleLines(original, f)
            && Occurrence(original, edits, e) == Occurrence(original, edits, f))
  {
    IdIs(file, name, original, edits, e);
    IdIs(file, name, original, edits, f);
    var (a, a') := EditLines(original, e).value;
    var (b, b') := EditLines(original, f).value;
    IdentityKeysCoincideIff(file, name, a, a', Occurrence(original, edits, e), file, name, b, b',
        Occurrence(original, edits, f));
  }

  /** Different edits with one text have different occurrences. */
  lemma SameTextDifferentOccurrence(original: string, edits: seq<Edit>, e: Edit, f: Edit)
    requires e in edits && f in edits && e.Valid(original) && f.Valid(original) && e != f
    requires IdentityText(original, e).value.text == IdentityText(original, f).value.text
    ensures Occurrence(original, edits, e) != Occurrence(original, edits, f)
  {
    OwnPlace(original, edits, e);
    OwnPlace(original, edits, f);
    if EditKey(e) == EditKey(f) {
      EditKeyInjective(e, f);
    }
    PlacesAreDistinct(Identified(original, edits), EditKey(e), EditKey(f));
  }

  /** Different edits have different identities as long as no line the two change
      reads as a diff header or holds a NUL. */
  lemma DistinctEditsDistinctIds(file: string, name: string, original: string, edits: seq<Edit>, e: Edit, f: Edit)
    requires '\0' !in file && '\0' !in name
    requires e in edits && f in edits && e.Valid(original) && f.Valid(original) && e != f
    requires PlainEdit(original, e) && PlainEdit(original, f)
    ensures var ids := Ids(file, name, original, edits);
      EditKey(e) in ids && EditKey(f) in ids && ids[EditKey(e)] != ids[EditKey(f)]
  {
    IdsCoincideIff(file, name, original, edits, e, f);
    PlainLinesAreVisible(original, e);
    PlainLinesAreVisible(original, f);
    if EditLines(original, e) == EditLines(original, f) {
      SameTextDifferentOccurrence(original, edits, e, f);
    }
  }

  lemma PlainLinesAreVisible(original: string, e: Edit)
    requires e.Valid(original) && PlainEdit(original, e)
    ensures Some(VisibleLines(original, e)) == EditLines(original, e)
  {
    var (removed, added) := EditLines(original, e).value;
    VisibleIffNoHeader('-', removed);
    VisibleIffNoHeader('+', added);
  }

  lemma TwoOccurrences(original: string, e: Edit, f: Edit)
    requires e.Valid(original) && f.Valid(original)
    requires IdentityText(original, e).value.text != IdentityText(original, f).value.text
    ensures Occurrence(original, [e, f], e) == 0 && Occurrence(original, [e, f], f) == 0
  {
    PresentPair(TextAt(original), e, f);
    if EditKey(e) == EditKey(f) {
      EditKeyInjective(e, f);
    }
    TwoItems(IdentityText(original, e).value, IdentityText(original, f).value);
  }

  lemma PresentPair<A, X>(text: A -> Option<X>, e: A, f: A)
    requires text(e).Some? && text(f).Some?
    ensures Present(Mapped(text, [e, f])) == [text(e).value, text(f).value]
  {
    var x, y := text(e), text(f);
    assert Mapped(text, [e, f]) == [x, y];
    PresentSnoc([x], y);
    PresentSnoc([], x);
    assert [x] + [y] == [x, y] && [] + [x] == [x];
  }

  /** Two edits whose different texts are hashed alike share an identity. */
  lemma AlikeTextsCollide(file: string, name: string, original: string, e: Edit, f: Edit, s: string, t: string)
    requires e.Valid(original) && f.Valid(original) && s != t
    requires IdentityText(original, e).value.text == s && IdentityText(original, f).value.text == t
    requires IdentityKey(file, name, s, 0) == IdentityKey(file, name, t, 0)
    ensures var ids := Ids(file, name, original, [e, f]);
      EditKey(e) in ids && EditKey(f) in ids && ids[EditKey(e)] == ids[EditKey(f)]
  {
    TwoOccurrences(original, e, f);
    IdIs(file, name, original, [e, f], e);
    IdIs(file, name, original, [e, f], f);
  }

  /** In a walk that makes two edits, both have one identity. */
  ghost predicate ShareId(file: string, name: string, original: string, e: Edit, f: Edit) {
    && e.Valid(original) && f.Valid(original) && e != f
    && var ids := Ids(file, name, original, [e, f]);
      EditKey(e) in ids && EditKey(f) in ids && ids[EditKey(e)] == ids[EditKey(f)]
  }

  /** Two edits that change different lines with the same visible ones share an identity. */
  lemma AlikeLinesCollide(file: string, name: string, original: string, e: Edit, f: Edit)
    requires e.Valid(original) && f.Valid(original) && EditLines(original, e) != EditLines(original, f)
    requires VisibleLines(original, e) == VisibleLines(original, f)
    ensures ShareId(file, name, original, e, f)
  {
    var (removed, added) := EditLines(original, e).value;
    var (removed', added') := EditLines(original, f).value;
    ChangedLinesAreLines(original, e);
    ChangedLinesAreLines(original, f);
    HeaderTextsAlike(file, name, removed, added, removed', added');
    AlikeTextsCollide(file, name, original, e, f, FormatChangedLines(removed, added),
                      FormatChangedLines(removed', added'));
  }

  // ----- what the text above does to identities -----

  function ShiftAll(edits: seq<Edit>, down: nat): seq<Edit> {
    seq(|edits|, i requires 0 <= i < |edits| => edits[i].Shift(down))
  }

  lemma {:induction false} PresentAppend<X>(xs: seq<Option<X>>, ys: seq<Option<X>>)
    ensures Present(xs + ys) == Present(xs) + Present(ys)
  {
    if xs == [] {
      NoAppend(ys);
    } else {
      PresentAppend(xs[1..], ys);
      AppendStep(xs, ys);
      Assoc(if xs[0].Some? then [xs[0].value] else [], Present(xs[1..]), Present(ys));
    }
  }

  lemma IdentifiedAppend(original: string, a: seq<Edit>, b: seq<Edit>)
    ensures Identified(original, a + b) == Identified(original, a) + Identified(original, b)
  {
    PresentAppend(IdentityTexts(original, a), IdentityTexts(original, b));
    MapAppend(TextAt(original), a, b);
  }

  /** Edits that start in front of a place and edits that do not share no key. */
  lemma StartsKeepApart(original: string, front: seq<Edit>, behind: seq<Edit>, at: int)
    requires forall d :: d in front ==> d.start < at
    requires forall d :: d in behind ==> d.start >= at
    ensures KeysApart(Identified(original, front), Identified(original, behind))
  {
    var a, b := Identified(original, front), Identified(original, behind);
    forall i, j | 0 <= i < |a| && 0 <= j < |b| ensures a[i].key != b[j].key {
      var d, e := EditAt(original, front, i), EditAt(original, behind, j);
      if EditKey(d) == EditKey(e) {
        EditKeyInjective(d, e);
      }
    }
  }

  lemma {:induction false} SamePattern<X>(xs: seq<Option<X>>, ys: seq<Option<X>>)
    requires |xs| == |ys| && forall i :: 0 <= i < |xs| ==> (xs[i].Some? <==> ys[i].Some?)
    ensures |Present(xs)| == |Present(ys)|
    ensures forall i :: 0 <= i < |Present(xs)| ==> PresentAt(xs, i) == PresentAt(ys, i)
  {
    if xs != [] {
      SamePattern(xs[1..], ys[1..]);
    }
  }

  /** The text of an edit does not depend on the whole lines above it. */
  lemma TextBelowLines(t: string, rest: string, d: Edit)
    requires EndsLine(t) && d.start >= 0
    ensures EditLines(t + rest, d.Shift(|t|)) == EditLines(rest, d)
    ensures d.Shift(|t|).Valid(t + rest) <==> d.Valid(rest)
  {
    EditLinesSurviveShift(t, rest, d);
  }

  /** Moving a text below other whole lines keeps the shape of its edits. */
  lemma MovedKeepShape(t: string, t': string, rest: string, edits: seq<Edit>)
    requires EndsLine(t) && EndsLine(t') && forall d :: d in edits ==> d.start >= 0
    ensures SameShape(Identified(t + rest, ShiftAll(edits, |t|)), Identified(t' + rest, ShiftAll(edits, |t'|)))
  {
    var a, b := ShiftAll(edits, |t|), ShiftAll(edits, |t'|);
    var xs, ys := IdentityTexts(t + rest, a), IdentityTexts(t' + rest, b);
    forall i | 0 <= i < |edits| ensures xs[i].Some? <==> ys[i].Some? {
      TextBelowLines(t, rest, edits[i]);
      TextBelowLines(t', rest, edits[i]);
    }
    SamePattern(xs, ys);
    forall i, j | 0 <= i < |Present(xs)| && 0 <= j < |Present(xs)|
      ensures Present(xs)[i].text == Present(ys)[i].text
      ensures Present(xs)[i].key == Present(xs)[j].key <==> Present(ys)[i].key == Present(ys)[j].key
    {
      MovedTogether(t, t', rest, edits[PresentAt(xs, i)], edits[PresentAt(xs, j)]);
    }
  }

  lemma MovedTogether(t: string, t': string, rest: string, d: Edit, e: Edit)
    requires EndsLine(t) && EndsLine(t') && d.start >= 0 && e.start >= 0 && d.Valid(rest) && e.Valid(rest)
    ensures var x, x' := IdentityText(t + rest, d.Shift(|t|)), IdentityText(t' + rest, d.Shift(|t'|));
      var y, y' := IdentityText(t + rest, e.Shift(|t|)), IdentityText(t' + rest, e.Shift(|t'|));
      && x.Some? && x'.Some? && y.Some? && y'.Some? && x.value.text == x'.value.text
      && (x.value.key == y.value.key <==> x'.value.key == y'.value.key)
  {
    TextBelowLines(t, rest, d);
    TextBelowLines(t', rest, d);
    TextBelowLines(t, rest, e);
    TextBelowLines(t', rest, e);
    KeysMoveTogether(d, e, |t|);
    KeysMoveTogether(d, e, |t'|);
  }

  lemma KeysMoveTogether(e: Edit, f: Edit, down: nat)
    requires e.start >= 0 && e.end >= 0 && f.start >= 0 && f.end >= 0
    ensures EditKey(e.Shift(down)) == EditKey(f.Shift(down)) <==> e == f
  {
    if EditKey(e.Shift(down)) == EditKey(f.Shift(down)) {
      EditKeyInjective(e.Shift(down), f.Shift(down));
    }
  }

  /** How many different edits have the text. */
  function TextCount(original: string, edits: seq<Edit>, text: string): nat {
    Total(Identified(original, edits), text)
  }

  /** A file keeps its lower part while the whole lines above it, and the edits
      that start there, change in any way: an edit of the lower part keeps its
      identity exactly when as many different edits above have its text. */
  lemma IdsSurviveIff(file: string, name: string, t: string, t': string, rest: string,
                      above: seq<Edit>, above': seq<Edit>, edits: seq<Edit>, e: Edit)
    requires EndsLine(t) && EndsLine(t') && e in edits && e.Valid(rest)
    requires forall d :: d in above ==> d.start < |t|
    requires forall d :: d in above' ==> d.start < |t'|
    requires forall d :: d in edits ==> d.start >= 0
    ensures var ids := Ids(file, name, t + rest, above + ShiftAll(edits, |t|));
      var ids' := Ids(file, name, t' + rest, above' + ShiftAll(edits, |t'|));
      var text := IdentityText(rest, e).value.text;
      && EditKey(e.Shift(|t|)) in ids && EditKey(e.Shift(|t'|)) in ids'
      && (ids'[EditKey(e.Shift(|t'|))] == ids[EditKey(e.Shift(|t|))] <==>
            TextCount(t' + rest, above', text) == TextCount(t + rest, above, text))
  {
    var items, items' := Identified(t + rest, ShiftAll(edits, |t|)), Identified(t' + rest, ShiftAll(edits, |t'|));
    var front, front' := Identified(t + rest, above), Identified(t' + rest, above');
    PlacesBelow(t, t', rest, above, above', edits, e);
    var p, p' := PlaceIn(front + items, EditKey(e.Shift(|t|))), PlaceIn(front' + items', EditKey(e.Shift(|t'|)));
    IdentifiedAppend(t + rest, above, ShiftAll(edits, |t|));
    IdentifiedAppend(t' + rest, above', ShiftAll(edits, |t'|));
    SameTextKeysCoincideIff(file, name, p.text, p.occurrence, p'.occurrence);
  }

  lemma PlacesBelow(t: string, t': string, rest: string, above: seq<Edit>, above': seq<Edit>, edits: seq<Edit>, e: Edit)
    requires EndsLine(t) && EndsLine(t') && e in edits && e.Valid(rest)
    requires forall d :: d in above ==> d.start < |t|
    requires forall d :: d in above' ==> d.start < |t'|
    requires forall d :: d in edits ==> d.start >= 0
    ensures
      var all := Identified(t + rest, above) + Identified(t + rest, ShiftAll(edits, |t|));
      var all' := Identified(t' + rest, above') + Identified(t' + rest, ShiftAll(edits, |t'|));
      var k, k', text := EditKey(e.Shift(|t|)), EditKey(e.Shift(|t'|)), IdentityText(rest, e).value.text;
      && k in Keys(all) && k' in Keys(all') && PlaceIn(all, k).text == PlaceIn(all', k').text == text
      && (PlaceIn(all', k').occurrence == PlaceIn(all, k).occurrence <==>
            TextCount(t' + rest, above', text) == TextCount(t + rest, above, text))
  {
    var items, items' := Identified(t + rest, ShiftAll(edits, |t|)), Identified(t' + rest, ShiftAll(edits, |t'|));
    MovedKeepShape(t, t', rest, edits);
    StartsKeepApart(t + rest, above, ShiftAll(edits, |t|), |t|);
    StartsKeepApart(t' + rest, above', ShiftAll(edits, |t'|), |t'|);
    var i := MovedItem(t, t', rest, edits, e);
    PlacesSurviveIff(Identified(t + rest, above), items, Identified(t' + rest, above'), items', i);
    TextBelowLines(t, rest, e);
    assert e.Shift(|t|) in ShiftAll(edits, |t|) by {
      var n :| 0 <= n < |edits| && edits[n] == e;
      assert ShiftAll(edits, |t|)[n] == e.Shift(|t|);
    }
    OwnPlace(t + rest, ShiftAll(edits, |t|), e.Shift(|t|));
    PlaceBehind(Identified(t + rest, above), items, EditKey(e.Shift(|t|)));
  }

  lemma MovedItem(t: string, t': string, rest: string, edits: seq<Edit>, e: Edit) returns (i: nat)
    requires EndsLine(t) && EndsLine(t') && e in edits && e.Valid(rest) && forall d :: d in edits ==> d.start >= 0
    requires SameShape(Identified(t + rest, ShiftAll(edits, |t|)), Identified(t' + rest, ShiftAll(edits, |t'|)))
    ensures i < |Identified(t + rest, ShiftAll(edits, |t|))|
    ensures Identified(t + rest, ShiftAll(edits, |t|))[i].key == EditKey(e.Shift(|t|))
    ensures Identified(t' + rest, ShiftAll(edits, |t'|))[i].key == EditKey(e.Shift(|t'|))
  {
    var n :| 0 <= n < |edits| && edits[n] == e;
    var xs, ys := IdentityTexts(t + rest, ShiftAll(edits, |t|)), IdentityTexts(t' + rest, ShiftAll(edits, |t'|));
    forall i | 0 <= i < |edits| ensures xs[i].Some? <==> ys[i].Some? {
      TextBelowLines(t, rest, edits[i]);
      TextBelowLines(t', rest, edits[i]);
    }
    TextBelowLines(t, rest, e);
    i := PresentHas(xs, n);
    SamePattern(xs, ys);
  }

  /** Identified edits are first under their key with a text or have it nowhere. */
  lemma NoTextCountedIff(original: string, edits: seq<Edit>, text: string)
    ensures TextCount(original, edits, text) == 0 <==>
      forall d :: d in edits && d.Valid(original) ==> IdentityText(original, d).value.text != text
  {
    var items := Identified(original, edits);
    NoneIsCounted(items, |items|, text);
    if TextCount(original, edits, text) == 0 {
      forall d | d in edits && d.Valid(original) ensures IdentityText(original, d).value.text != text {
        OwnPlace(original, edits, d);
        var a := FirstIndex(items, EditKey(d));
        assert First(items, a);
      }
    }
    if forall d :: d in edits && d.Valid(original) ==> IdentityText(original, d).value.text != text {
      forall i | 0 <= i < |items| ensures items[i].text != text {
        var d := EditAt(original, edits, i);
        assert d in edits && d.Valid(original);
      }
    }
  }

  lemma CountWithBlock(original: string, above: seq<Edit>, block: seq<Edit>, at: int, text: string)
    requires forall d :: d in above ==> d.start < at
    requires forall d :: d in block ==> d.start >= at
    ensures TextCount(original, above + block, text) ==
            TextCount(original, above, text) + TextCount(original, block, text)
  {
    StartsKeepApart(original, above, block, at);
    IdentifiedAppend(original, above, block);
    RankBehind(Identified(original, above), Identified(original, block), |Identified(original, block)|, text);
  }

  /** Each edit has the same text in both files, or can be captured in neither. */
  predicate SameTextsIn(original: string, original': string, edits: seq<Edit>) {
    forall i :: 0 <= i < |edits| ==> IdentityText(original', edits[i]) == IdentityText(original, edits[i])
  }

  lemma SameTextsSameItems(original: string, original': string, edits: seq<Edit>)
    requires SameTextsIn(original, original', edits)
    ensures Identified(original', edits) == Identified(original, edits)
  {
    assert IdentityTexts(original', edits) == IdentityTexts(original, edits);
  }

  /** Whole lines inserted anywhere in a file, with edits of their own, while the
      edits above keep their texts: an edit below loses its identity exactly when
      the inserted lines hold an edit with its text. */
  lemma IdsSurviveInsertionIff(file: string, name: string, top: string, p: string, rest: string,
                               above: seq<Edit>, block: seq<Edit>, edits: seq<Edit>, e: Edit)
    requires EndsLine(top) && EndsLine(p) && e in edits && e.Valid(rest)
    requires forall d :: d in above ==> d.start < |top|
    requires forall d :: d in block ==> |top| <= d.start < |top + p|
    requires forall d :: d in edits ==> d.start >= 0
    requires SameTextsIn(top + rest, top + p + rest, above)
    ensures var ids := Ids(file, name, top + rest, above + ShiftAll(edits, |top|));
      var ids' := Ids(file, name, top + p + rest, above + block + ShiftAll(edits, |top + p|));
      var text := IdentityText(rest, e).value.text;
      && EditKey(e.Shift(|top|)) in ids && EditKey(e.Shift(|top + p|)) in ids'
      && (ids'[EditKey(e.Shift(|top + p|))] == ids[EditKey(e.Shift(|top|))] <==>
            forall d :: d in block && d.Valid(top + p + rest) ==> IdentityText(top + p + rest, d).value.text != text)
  {
    assert EndsLine(top + p);
    IdsSurviveIff(file, name, top, top + p, rest, above, above + block, edits, e);
    BlockAddsTextIff(top + rest, top + p + rest, above, block, |top|, IdentityText(rest, e).value.text);
  }

  lemma BlockAddsTextIff(original: string, original': string, above: seq<Edit>, block: seq<Edit>, at: int, text: string)
    requires forall d :: d in above ==> d.start < at
    requires forall d :: d in block ==> d.start >= at
    requires SameTextsIn(original, original', above)
    ensures TextCount(original', above + block, text) == TextCount(original, above, text) <==>
      forall d :: d in block && d.Valid(original') ==> IdentityText(original', d).value.text != text
  {
    SameTextsSameItems(original, original', above);
    CountWithBlock(original', above, block, at, text);
    NoTextCountedIff(original', block, text);
  }

  /** The edits above keep theirs. */
  lemma IdsAboveSurvive(file: string, name: string, original: string, original': string,
                        above: seq<Edit>, below: seq<Edit>, below': seq<Edit>, e: Edit)
    requires SameTextsIn(original, original', above) && e in above && e.Valid(original)
    ensures var ids, ids' := Ids(file, name, original, above + below), Ids(file, name, original', above + below');
      EditKey(e) in ids && EditKey(e) in ids' && ids'[EditKey(e)] == ids[EditKey(e)]
  {
    SameTextsSameItems(original, original', above);
    OwnPlace(original, above, e);
    IdentifiedAppend(original, above, below);
    IdentifiedAppend(original', above, below');
    PlaceInFront(Identified(original, above), Identified(original, below), EditKey(e));
    PlaceInFront(Identified(original, above), Identified(original', below'), EditKey(e));
  }

  /** The identity of an edit depends on the walk up to the edit alone. */
  lemma IdInFront(file: string, name: string, original: string, above: seq<Edit>, below: seq<Edit>, e: Edit)
    requires e in above && e.Valid(original)
    ensures var ids := Ids(file, name, original, above + below);
      && EditKey(e) in ids
      && ids[EditKey(e)] ==
           IdOf(file, name, Place(IdentityText(original, e).value.text, Occurrence(original, above, e)))
  {
    OwnPlace(original, above, e);
    IdentifiedAppend(original, above, below);
    PlaceInFront(Identified(original, above), Identified(original, below), EditKey(e));
  }

  /** Whatever the file and the rest of the walk become, an edit of the first part
      of the walk keeps its identity exactly when it keeps its visible lines and
      its occurrence in that part. */
  lemma IdsInFrontSurviveIff(file: string, name: string, original: string, original': string,
                             above: seq<Edit>, below: seq<Edit>, below': seq<Edit>, e: Edit)
    requires '\0' !in file && '\0' !in name
    requires e in above && e.Valid(original) && e.Valid(original')
    requires CleanEdit(original, e) && CleanEdit(original', e)
    ensures var ids, ids' := Ids(file, name, original, above + below), Ids(file, name, original', above + below');
      && EditKey(e) in ids && EditKey(e) in ids'
      && (ids'[EditKey(e)] == ids[EditKey(e)] <==>
            && VisibleLines(original', e) == VisibleLines(original, e)
            && Occurrence(original', above, e) == Occurrence(original, above, e))
  {
    IdInFront(file, name, original, above, below, e);
    IdInFront(file, name, original', above, below', e);
    var (a, a') := EditLines(original, e).value;
    var (b, b') := EditLines(original', e).value;
    IdentityKeysCoincideIff(file, name, b, b', Occurrence(original', above, e), file, name, a, a',
        Occurrence(original, above, e));
  }

  /** Other text, with other edits, below whole lines: an edit of plain lines keeps
      its identity exactly when its lines turn the same way above both texts and as
      many different edits in front of it have its text as before. */
  lemma IdsAboveSurviveIff(file: string, name: string, top: string, low: string, low': string,
                           above: seq<Edit>, below: seq<Edit>, below': seq<Edit>, e: Edit)
    requires '\0' !in file && '\0' !in name
    requires e in above && StaysAbove(e, top)
    requires PlainEdit(top + low, e) && PlainEdit(top + low', e)
    ensures var ids, ids' := Ids(file, name, top + low, above + below), Ids(file, name, top + low', above + below');
      && EditKey(e) in ids && EditKey(e) in ids'
      && (ids'[EditKey(e)] == ids[EditKey(e)] <==>
            && SameAbove(SplitDiffLines(top), SplitDiffLines(e.Materialize(top).value), SplitDiffLines(low),
                         SplitDiffLines(low'))
            && Occurrence(top + low', above, e) == Occurrence(top + low, above, e))
  {
    IdsInFrontSurviveIff(file, name, top + low, top + low', above, below, below', e);
    PlainLinesAreVisible(top + low, e);
    PlainLinesAreVisible(top + low', e);
    EditLinesSurviveBelowIff(top, low, low', e);
  }

  // ----- a filtered or partial walk finds the identities of the full one -----

  /** The nodes of a file with the edits the mutator makes at each; `at` is the
      position the filters judge. */
  datatype Tree = Tree(node: nat, mutations: seq<Mutation>, kids: seq<Tree>)
  datatype Mutation = Mutation(at: nat, edit: Edit)

  /** The edits of a walk under filters that judge nodes and positions. */
  function FilteredEdits(t: Tree, keepNode: nat -> bool, keepAt: nat -> bool): seq<Edit> {
    (if keepNode(t.node) then KeptEdits(t.mutations, keepAt) else []) + FilteredEditsOfKids(t.kids, keepNode, keepAt)
  }

  function FilteredEditsOfKids(ts: seq<Tree>, keepNode: nat -> bool, keepAt: nat -> bool): seq<Edit> {
    if ts == [] then [] else FilteredEdits(ts[0], keepNode, keepAt) + FilteredEditsOfKids(ts[1..], keepNode, keepAt)
  }

  function KeptEdits(ms: seq<Mutation>, keepAt: nat -> bool): seq<Edit> {
    if ms == [] then []
    else (if keepAt(ms[0].at) then [ms[0].edit] else []) + KeptEdits(ms[1..], keepAt)
  }

  const EVERYTHING: nat -> bool := (_: nat) => true

  function AllEdits(t: Tree): seq<Edit> {
    FilteredEdits(t, EVERYTHING, EVERYTHING)
  }

  predicate Subtree(t: Tree, root: Tree) {
    t == root || exists i :: 0 <= i < |root.kids| && Subtree(t, root.kids[i])
  }

  lemma {:induction false} KeptEditsAreEdits(ms: seq<Mutation>, keepAt: nat -> bool, e: Edit)
    requires e in KeptEdits(ms, keepAt)
    ensures e in KeptEdits(ms, EVERYTHING)
  {
    if !(keepAt(ms[0].at) && e == ms[0].edit) {
      KeptEditsAreEdits(ms[1..], keepAt, e);
    }
  }

  lemma {:induction false} FilteredEditsAreEdits(t: Tree, keepNode: nat -> bool, keepAt: nat -> bool, e: Edit)
    requires e in FilteredEdits(t, keepNode, keepAt)
    ensures e in AllEdits(t)
    decreases t, 0
  {
    if keepNode(t.node) && e in KeptEdits(t.mutations, keepAt) {
      KeptEditsAreEdits(t.mutations, keepAt, e);
    } else {
      FilteredEditsOfKidsAreEdits(t.kids, keepNode, keepAt, e);
    }
  }

  lemma {:induction false} FilteredEditsOfKidsAreEdits(ts: seq<Tree>, keepNode: nat -> bool, keepAt: nat -> bool,
                                                       e: Edit)
    requires e in FilteredEditsOfKids(ts, keepNode, keepAt)
    ensures e in FilteredEditsOfKids(ts, EVERYTHING, EVERYTHING)
    decreases ts, 1
  {
    if e in FilteredEdits(ts[0], keepNode, keepAt) {
      FilteredEditsAreEdits(ts[0], keepNode, keepAt, e);
    } else {
      FilteredEditsOfKidsAreEdits(ts[1..], keepNode, keepAt, e);
    }
  }

  lemma {:induction false} SubtreeEditsAreEdits(t: Tree, root: Tree, e: Edit)
    requires Subtree(t, root) && e in AllEdits(t)
    ensures e in AllEdits(root)
  {
    if t != root {
      var i :| 0 <= i < |root.kids| && Subtree(t, root.kids[i]);
      SubtreeEditsAreEdits(t, root.kids[i], e);
      KidEdits(root.kids, i, e);
    }
  }

  lemma {:induction false} KidEdits(ts: seq<Tree>, i: nat, e: Edit)
    requires i < |ts| && e in AllEdits(ts[i])
    ensures e in FilteredEditsOfKids(ts, EVERYTHING, EVERYTHING)
  {
    if i > 0 {
      KidEdits(ts[1..], i - 1, e);
    }
  }

  /** Whatever nodes and positions are filtered out and whatever part of the file
      is walked, an edit that is captured has an identity: that of its text and of
      its occurrence in a run over the whole file. */
  lemma FilteredEditHasFullRunId(file: string, name: string, original: string, root: Tree, t: Tree,
                                 keepNode: nat -> bool, keepAt: nat -> bool, e: Edit)
    requires Subtree(t, root) && e in FilteredEdits(t, keepNode, keepAt) && e.Valid(original)
    ensures e in AllEdits(root)
    ensures var ids := Ids(file, name, original, AllEdits(root));
      && EditKey(e) in ids
      && ids[EditKey(e)] ==
           IdOf(file, name, Place(IdentityText(original, e).value.text, Occurrence(original, AllEdits(root), e)))
  {
    FilteredEditsAreEdits(t, keepNode, keepAt, e);
    SubtreeEditsAreEdits(t, root, e);
    IdIs(file, name, original, AllEdits(root), e);
  }
}
