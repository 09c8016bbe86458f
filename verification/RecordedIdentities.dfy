/**
 The identities of a whole mutation walk: mutantIdentities of
 internal/engine/mutantid.go receives the mutations of walk.go one at a time and
 captures the edit of each while it is applied.
*/
module RecordedIdentities {
  import opened Sequences
  import opened Wrappers
  import opened Edits
  import opened StableId
  import opened Occurrences
  import opened MutantIdentities
  import H = Handshake

  /** The edits captured from what a run recorded; capture prints the announced
      node of the tree as it stands. */
  function Captured<T>(capture: (nat, T) -> Edit, recorded: seq<H.Edit<T>>): seq<Edit> {
    Mapped((r: H.Edit<T>) => capture(r.node, r.tree), recorded)
  }

  /** The edit of one mutation of the tree as parsed. */
  function EditOf<T>(w: H.Walk<T>, capture: (nat, T) -> Edit, node: nat, i: nat): Edit
    requires i < |w.mutator(node, w.original)|
  {
    capture(node, w.mutator(node, w.original)[i].change(w.original))
  }

  lemma {:induction false} MutationIsRecorded<T>(w: H.Walk<T>, nodes: nat, node: nat, i: nat)
    requires node < nodes && i < |w.mutator(node, w.original)|
    ensures H.EditOf(w, node, i) in H.EditsBefore(w, nodes)
  {
    if node == nodes - 1 {
      assert H.EditsAt(w, node, |w.mutator(node, w.original)|)[i] == H.EditOf(w, node, i);
    } else {
      MutationIsRecorded(w, nodes - 1, node, i);
    }
  }

  /** However the two goroutines interleave, a run that cannot go on has identified
      every mutation of the tree as parsed that can be captured, by the text of its
      edit and its occurrence among all of them in walk order. */
  lemma CompleteRunIdentifies<T(!new)>(w: H.Walk<T>, run: seq<H.State<T>>, capture: (nat, T) -> Edit,
                                       file: string, name: string, original: string, node: nat, i: nat)
    requires H.Undoes(w) && H.IsRun(w, run) && H.Stuck(w, run[|run| - 1])
    requires node < w.nodes && i < |w.mutator(node, w.original)| && EditOf(w, capture, node, i).Valid(original)
    ensures var all := Captured(capture, H.EditsBefore(w, w.nodes));
      var e, ids := EditOf(w, capture, node, i), Ids(file, name, original, Captured(capture, run[|run| - 1].recorded));
      && e in all && EditKey(e) in ids
      && ids[EditKey(e)] == IdOf(file, name, Place(IdentityText(original, e).value.text, Occurrence(original, all, e)))
  {
    var all, e := Captured(capture, H.EditsBefore(w, w.nodes)), EditOf(w, capture, node, i);
    H.RunsComplete(w, run);
    MutationIsRecorded(w, w.nodes, node, i);
    MappedHas((r: H.Edit<T>) => capture(r.node, r.tree), H.EditsBefore(w, w.nodes), e);
    IdIs(file, name, original, all, e);
  }
}
