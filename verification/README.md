# go-mutesting, modelled in Dafny

go-mutesting changes a Go program one small edit at a time and records whether
its tests notice. This project models the parts of it that have to be right for
those records to mean anything, and proves what they promise:

* the **terminating-statement analysis**, which decides whether a branch that is
  emptied still needs a `return` (`GoSyntax`, `Terminating`, `Semantics`,
  `Soundness`, `Scoping`, `TerminatingSpec`, `Holes`, `BranchMutation`, and
  `BranchWalk`, its mutants under the mutation walk);
* the **identifier index**, an incremental, sorted cache that has to answer what
  a direct walk of the syntax tree answers (`GoNodes`, `IdentifierSpec`,
  `IdentifierAnswers`, `IdentifierIndex`, `GoSort`);
* the **stable identity of a mutant**: a minimal line diff, the splice of an edit
  into the file, the numbering of equal edits and the text that is hashed
  (`LineDiff`, `Edits`, `TextBelow`, `Occurrences`, `StableId`,
  `MutantIdentities`, `LostIdentities`, and `RecordedIdentities`, the identities
  of a whole walk);
* the **mutation handshake** between the walk and its consumer, the **pipeline**
  of discovery, workers and result store, and the change and reset **closures**
  that share slices (`Handshake`, `Scope`, `Pipeline`, `Results`, `Slices`,
  `FieldClear`, `DefaultRemove`, `ReturnValue`);
* the **fast lookups and merges**: changed-line ranges, per-test profiles, pruned
  package walks (`GitDiff`, `PerTestMerge`, `PerTestPool`, `PackagePattern`,
  `PackageWalk`);
* **bounded arithmetic and scoping**: hunk headers, clause heads, loop branches
  (`Hunk`, `ClauseHeads`, `LoopBreak`).

`Wrappers`, `Sequences` and `Picking` hold common helpers.

Loops, classes and arrays of the source are methods, classes and arrays here,
each proved against a function or predicate; the lemmas are about those.
Concurrent parts are step relations, and their theorems are about every run of
every interleaving. `dafny verify dfyconfig.toml` checks the whole project.

## What came out differently from the documentation

* `IsTerminatingList` is documented as deciding by the "Terminating statements"
  section of the Go specification. It leaves out calls of `panic`. Of the compiled
  bodies that the specification calls terminating it accepts exactly those in
  which none of the lists that make them so, and no else branch, ends in such a
  call (`TerminatingSpec.AnalysisDecidesSpec`).
* An emptied branch keeps a terminating body terminating exactly when the analysis
  does not come down to the branch (`BranchMutation.EmptiedBranchDecides`). A
  return is asked for in the other cases, but only in functions with results.
* A mutant's identity is meant to survive other edits of the file. Whatever
  happens to the whole lines above an edit, the identity stays exactly when as
  many different edits above have its text (`MutantIdentities.IdsSurviveIff`): it
  passes to a copy of the lines above (`LostIdentities.RepeatedCallTakesId`).
  Whatever happens to the text below, it stays exactly when two things do
  (`MutantIdentities.IdsAboveSurviveIff`): its occurrence among the edits in front
  of it, and its changed lines. The changed lines are lost exactly when the mutated
  lines start with the original ones, or the other way round, and what one has
  more turns differently above the new text. For an emptied case whose body starts
  with an empty line, an empty line in front of the next case is enough
  (`LostIdentities.EmptyLineBelowLosesId`).
* Two edits of one mutator in one file share an identity exactly when they have the
  same occurrence and the same changed lines apart from removed lines that start
  with `-- ` and added lines that start with `++ `, which read as diff headers
  (`MutantIdentities.IdsCoincideIff`). Two comparisons with raw strings that hold
  `-- a` and `-- b` are such edits (`LostIdentities.ComparisonsCollide`).
* A proper hunk is rejected when a line is added below line 2^63 - 1:
  `Hunk.AdditionBelowLargestLineIsLost`; `Hunk.FirstChangedLineIsExact` shows
  that this is the only one.
* The removal of a select's default clause can be undone once. Used again, the
  same pair of closures restores the select exactly when the default clause is
  the last one (`DefaultRemove.ReuseRestoresIffLast`). The walks ask for a fresh
  pair each time, for which the removal is always undone
  (`DefaultRemove.WalkRepeatedly`).

## Model

| member | source | states |
|---|---|---|
| Terminating.CheckTerminatingList | astutil/terminating.go:54-62 | the backward scan over trailing empty statements decides whether the list's last non-empty statement is terminating |
| Terminating.CheckHasBreakList | astutil/terminating.go:162-169 | the loop over a list finds a break for the target exactly when some statement has one |
| Terminating.CheckTerminatingSwitch | astutil/terminating.go:64-82 | the loop that tracks a default clause and stops at the first bad clause decides the rule for switches |
| Terminating.CheckTerminatingSelect | astutil/terminating.go:84-98 | the loop over communication clauses decides the rule for selects |
| Soundness.TerminatingIsSound | astutil/terminating.go:14-52 | no execution of a statement the analysis calls terminating completes normally, whatever its jumps, labels and loops do |
| Soundness.TerminatingListIsSound | astutil/terminating.go:54-62 | nor does any execution of such a list, started at any statement up to its last non-empty one |
| Soundness.TerminatingClauseIsSound | astutil/terminating.go:64-98 | entering any clause of a terminating switch or select, with fallthrough, never completes the statement |
| Soundness.UnbrokenLoopIsSound | astutil/terminating.go:43-44 | a loop without condition that no break refers to never completes normally |
| Soundness.EscapingBreakIsSeen | astutil/terminating.go:100-140 | whenever an execution leaves a statement by a break for a target, hasBreak reported that target |
| Soundness.EscapingBreakIsSeenInList | astutil/terminating.go:162-169 | the same for a list, through any jumps inside it |
| Soundness.EscapingBreakIsSeenInClause | astutil/terminating.go:104-119 | the same for the clauses of a switch or select |
| Soundness.EscapingBreakIsSeenInLoop | astutil/terminating.go:142-160 | the same for all rounds of a loop |
| Scoping.TerminatingBodyReturns | astutil/terminating.go:10-12 | a function body the analysis accepts never falls off its end; when its jumps are in scope it can only return or panic |
| Scoping.RunStaysInScope | astutil/terminating.go:132-140 | a statement whose branches are in scope leaves only by outcomes that scope allows |
| TerminatingSpec.HasBreakMeansRefers | astutil/terminating.go:100-130 | in code that declares no label twice on a path, the label comparison of hasBreak finds exactly the breaks that the resolution of labels binds to the statement |
| TerminatingSpec.AnalysisMeetsSpec | astutil/terminating.go:14-52 | on checked code the analysis accepts exactly the statements that the specification's rules, stated by resolved break targets and without its panic rule, call terminating |
| TerminatingSpec.AnalysisMeetsSpecList | astutil/terminating.go:54-62 | the same for statement lists, with a final fallthrough allowed in clauses |
| TerminatingSpec.ClausesMeetSpec | astutil/terminating.go:64-98 | the same for the clauses of switches and selects |
| TerminatingSpec.PanicOnlyAdds | astutil/terminating.go:14-52 | a statement is terminating without the panic rule exactly when it is with it and none of the lists that make it so, nor an else branch, ends in a panic call |
| TerminatingSpec.AnalysisDecidesSpec | astutil/terminating.go:10-12 | the analysis accepts a compiled body if and only if the full specification calls it terminating and none of the lists that make it so, nor an else branch, ends in a panic call |
| TerminatingSpec.PanicIsNotTerminatingHere | astutil/terminating.go:18-31 | a body that is one call of panic is terminating by the specification and not for the analysis |
| Holes.RefillIsFill | mutator/branch/preserve.go:41-57 | filling a branch twice is filling it with the last list, so emptying and putting back restores the body |
| Holes.FillAddsNoBreak | astutil/terminating.go:100-169 | putting a break-free list into a branch at any depth adds no break for any target |
| Holes.FillKeepsTerminating | astutil/terminating.go:54-62 | putting a terminating, break-free list into any branch of a terminating list keeps it terminating |
| Holes.FillKeepsTerminatingIff | astutil/terminating.go:14-98 | putting a break-free list that does not terminate into a terminating list keeps it terminating if and only if something other than an empty statement follows the branch in some list on the way to it, or a loop is on the way |
| Holes.FillAddsNoReference | mutator/branch/preserve.go:63-72 | putting a list without branches into a branch adds no reference to any enclosing statement |
| Holes.FillKeepsSpec | mutator/branch/preserve.go:63-72 | such a list keeps a body terminating by the specification's own rules |
| Holes.FillKeepsChecked | mutator/branch/preserve.go:63-72 | and keeps a body free of misplaced fallthroughs and repeated labels |
| BranchMutation.EmptiedBranchStaysTerminating | mutator/branch/preserve.go:12-39 | in a function with results, whatever the mutation installs in an if, else or case branch keeps a terminating body terminating, for the analysis and for the specification |
| BranchMutation.EmptiedBranchStillReturns | mutator/branch/preserve.go:12-39 | no execution of the mutated body completes normally |
| BranchMutation.EmptiedBranchDecides | mutator/branch/preserve.go:41-57 | an emptied branch leaves a terminating body terminating if and only if the analysis does not come down to the branch |
| BranchMutation.ReturnExactlyWhereBranchDecides | mutator/branch/preserve.go:41-72 | for a terminating body with results: the noop stands alone if and only if the analysis does not come down to the branch, a return follows it if and only if it does and one can be written, and there is no mutation if and only if the branch is empty, its import would be lost, or a return is needed that cannot be written |
| BranchMutation.BodyWithoutResultsFallsOffIff | mutator/branch/preserve.go:41-45 | in a function without results the replacement is the noop alone, and a terminating body stays one if and only if the branch does not decide |
| BranchMutation.BodyWithoutResultsMayFallOff | mutator/branch/preserve.go:41-45 | a body and a branch that decides |
| BranchMutation.FuncBody.TerminatingReturn | mutator/branch/preserve.go:41-57 | leaves the body as it was, and asks for a return, or a skip where none can be written, exactly when the analysis rejects the emptied body; for a terminating body that is if and only if the function has results and the branch decides |
| BranchMutation.FuncBody.MutateBranchBody | mutator/branch/preserve.go:12-39 | leaves the body as it was; there is no edit exactly when the branch is empty, its import would be lost, or the analysis rejects the emptied body of a function with results and no return can be written; otherwise the edit replaces the statements by the noop, followed by a return exactly when that body is rejected, in a terminating body exactly when the branch decides |
| BranchMutation.FuncBody.Change | mutator/branch/preserve.go:27-38 | installs the replacement in the branch and touches nothing else |
| BranchMutation.FuncBody.Reset | mutator/branch/preserve.go:27-38 | installs the original statements; after a change of a body the body comes back |
| GoSort.SortIsSorted | astutil/query.go:66-75 | sorting orders by position and keeps the elements |
| GoSort.Search | astutil/query.go:77-95 | binary search finds the first index of a property that stays true once true |
| GoSort.SearchFrom | astutil/query.go:77-95 | splits a sorted list at a position |
| IdentifierSpec.WalkIsAnswer | astutil/query.go:231-302 | the walk that rebuilds expressions while descending returns the copies of the recorded nodes whose objects are not excluded |
| IdentifierSpec.DefinitionsAreDefinedList | astutil/query.go:196-218 | variableDefinitions collects the objects of exactly the identifiers that are collected as definitions |
| IdentifierSpec.RecordedIncreases | astutil/query.go:130-157 | in a tree whose leaves stand in order, recorded nodes have increasing positions, whole selectors included |
| IdentifierSpec.IncreasingIsUnique | astutil/query.go:66-95 | two lists with increasing positions and the same members are equal |
| IdentifierSpec.RangeIsRun | astutil/query.go:55-64 | in a well-formed tree the nodes recorded for a run of sibling statements are exactly those of the whole tree whose position lies in its range |
| IdentifierAnswers.CloneSpells | astutil/query.go:97-113 | the copy of a selector spells the names of its identifiers in order, and is a composite literal if and only if its last name stands for a type, not generic, with an array, map, slice or struct under it |
| IdentifierAnswers.RecordedStands | astutil/query.go:124-188 | what a walk records are the variables read, fields, blanks and keywords apart, and the selectors that are one value, outside any other such selector |
| IdentifierAnswers.LocalIsExcluded | astutil/query.go:196-218 | what the walk leaves out are those whose first name is a variable declared in the statements |
| IdentifierAnswers.ReferenceIsAnswer | astutil/query.go:220-302 | the direct walk answers with what the statements mention and do not declare, each once, in position order, and spelled as it stands there |
| IdentifierIndex.SortMirrors | astutil/query.go:66-75 | sorting the events in place keeps them one to one with the seen set |
| IdentifierIndex.SeenInRange | astutil/query.go:66-95 | once a range is covered, by this query or a wider one, the index has seen exactly its nodes inside it |
| IdentifierIndex.EventsInRange | astutil/query.go:77-95 | the sorted events between the two searches are the nodes a walk of the statements records, in its order |
| IdentifierIndex.ExcludedInRange | astutil/query.go:77-95 | the definitions of the range exclude what the walk would exclude |
| IdentifierIndex.CopyFrom | astutil/query.go:77-113 | the copying loop stops at the range's end and returns the copies that are not excluded |
| IdentifierIndex.Index.Covers | astutil/query.go:115-122 | finds a known range that holds the asked one exactly when there is one |
| IdentifierIndex.Index.CollectSelector | astutil/query.go:143-157 | records a whole selector once, and descends into any other |
| IdentifierIndex.Index.CollectDefinition | astutil/query.go:159-172 | records a variable definition once |
| IdentifierIndex.Index.CollectIdentifier | astutil/query.go:174-188 | records a variable use once, and no keyword, blank or field |
| IdentifierIndex.Index.Collect | astutil/query.go:124-141 | adds exactly the nodes below a node to what has been seen and keeps the lists consistent with the sets |
| IdentifierIndex.Index.Ensure | astutil/query.go:66-75 | keeps the index valid and covers the range; a covered range changes nothing |
| IdentifierIndex.Index.Results | astutil/query.go:77-95 | returns for a covered range what a direct walk returns |
| IdentifierIndex.Index.Query | astutil/query.go:55-64 | returns what the direct walk with the exclusions of its statements returns, which is what the statements mention and do not declare, each once, in order and spelled as it stands there; keeps the index valid |
| IdentifierIndex.AnswerAll | astutil/query.go:12-64 | any sequence of queries to one index is answered as if each were a direct walk, and each with what its statements mention and do not declare |
| LineDiff.NoScriptKeepsMore | internal/engine/mutantid.go:104-127 | no way of turning one file into the other keeps more lines than the table's value |
| LineDiff.FillLcsRow | internal/engine/mutantid.go:116-127 | fills one row of the table from the row below and leaves the others alone |
| LineDiff.LineLcs | internal/engine/mutantid.go:104-114 | every entry is the length of a longest common subsequence of two suffixes |
| LineDiff.DiffKeepsLcs | internal/engine/mutantid.go:129-148 | the greedy walk is an edit script that keeps as many lines as the table promises |
| LineDiff.WalkLineDiff | internal/engine/mutantid.go:129-148 | the walk returns what its script removes and adds, in order |
| LineDiff.LcsOfPrefixed | internal/engine/mutantid.go:80-90 | a common front adds its length to the longest common subsequence |
| LineDiff.LcsOfSuffixed | internal/engine/mutantid.go:80-90 | so does a common end |
| LineDiff.MostKeptIsCheapest | internal/engine/mutantid.go:75-90 | a script that keeps the most removes and adds the least |
| LineDiff.ComputeChangedLines | internal/engine/mutantid.go:80-90 | trimming in two loops and diffing the middle gives the changed lines |
| LineDiff.ChangedLinesIsMinimal | internal/engine/mutantid.go:75-148 | after trimming, the removed and added lines are those of a script of the whole files, and no script removes and adds fewer lines |
| LineDiff.DiffIsFirst | internal/engine/mutantid.go:129-148 | of all scripts that keep the most lines, the walk finds the one that, where they differ, keeps rather than removes and removes rather than adds |
| LineDiff.ChangedLinesAreFirst | internal/engine/mutantid.go:75-90 | common lines are trimmed as far as possible, in front and then at the back, and the changed lines are those of the first best script for the rest |
| LineDiff.DisjointFilesChange | internal/engine/mutantid.go:75-148 | of files without a common line all lines are removed and added |
| Edits.SplitAfterBlock | internal/engine/mutantid.go:92-102 | splitting text with a block of whole lines in front gives the block's lines and then the text's |
| Edits.ChangedLinesAfterBlock | internal/engine/mutantid.go:80-90 | lines in front of both files do not change the diff |
| Edits.EditLinesSurviveShift | internal/engine/engine.go:1463-1472 | inserting whole lines above an edit and moving its offsets changes none of the lines it removes or adds, nor whether it is valid |
| TextBelow.DivergingLinesSurvive | internal/engine/mutantid.go:80-90 | when neither file starts with the other, lines below both leave the changed lines alone |
| TextBelow.InsertionTurns | internal/engine/mutantid.go:80-90 | lines inserted in front of others are reported rotated by as many lines as the others have in common with the whole |
| TextBelow.RemovalTurns | internal/engine/mutantid.go:80-90 | so are removed ones |
| TextBelow.ChangedLinesSurviveBelowIff | internal/engine/mutantid.go:80-90 | other lines below two files leave the changed lines alone if and only if neither file starts with the other or the lines one has more turn the same way |
| TextBelow.AppendedLinesSurviveIff | internal/engine/mutantid.go:80-90 | appended lines do so if and only if neither file starts with the other or those lines are their own rotation |
| TextBelow.EditLinesSurviveBelowIff | internal/engine/engine.go:1463-1472 | the same for an edit inside whole lines of a file and any text below them |
| StableId.DecimalInjective | internal/engine/mutantid.go:55-58 | different numbers are printed differently |
| StableId.DecimalStarts | internal/baseline/baseline.go:65-67 | without a leading zero |
| StableId.EditKeyInjective | internal/engine/mutantid.go:55-58 | edits with one key are one edit, even when the replacement holds colons |
| StableId.WriteDiffLines | internal/engine/mutantid.go:67-73 | appends each line with its mark and a newline |
| StableId.ScanDiff | internal/baseline/baseline.go:50-70 | the loop collects the marked lines of a diff that are not headers, each with its newline |
| StableId.MutantIdAt | internal/baseline/baseline.go:46-70 | computes the text that is hashed, which the next row spells out |
| StableId.HashedText | internal/baseline/baseline.go:46-70 | for a change without header-like lines: file, mutator, removed lines and added lines, NUL between them, each line with its newline; nothing follows for occurrence 0, and NUL and the decimal number for any other |
| StableId.MarkedOfFormat | internal/baseline/baseline.go:50-70 | what is read back from a formatted change are its lines without those that look like headers |
| StableId.TextIsReadBackIffNoHeader | internal/baseline/baseline.go:50-70 | the whole change is read back if and only if no removed line starts with two minuses and a blank and no added line with two pluses and a blank |
| StableId.IdentityKeyInjective | internal/baseline/baseline.go:46-70 | without such lines and NUL bytes, the hashed text determines file, mutator, removed lines, added lines and occurrence |
| StableId.IdentityKeysCoincideIff | internal/baseline/baseline.go:46-70 | without NUL bytes, two hashed texts are equal if and only if file, mutator and occurrence are and the removed and added lines that do not read as headers |
| StableId.SameTextKeysCoincideIff | internal/baseline/baseline.go:64-70 | for one change in one file the occurrence alone tells the hashed texts apart |
| StableId.HeaderTextsAlike | internal/baseline/baseline.go:50-70 | two different changes that agree apart from lines that read as headers have different texts that are hashed alike |
| Occurrences.Number | internal/engine/mutantid.go:23-39 | one pass with two maps gives each new key its text and the number of different keys with that text before it, and repeated keys nothing new |
| Occurrences.NumbersAreDense | internal/engine/mutantid.go:18-22 | items with one text are numbered 0 up to their count, in order |
| Occurrences.PlacesAreDistinct | internal/engine/mutantid.go:18-22 | items with different keys differ in text or number |
| Occurrences.PlaceBehind | internal/engine/mutantid.go:18-22 | items in front move an item's number up by as many different ones as they hold with its text |
| Occurrences.PlaceInFront | internal/engine/mutantid.go:18-22 | items behind change no number |
| Occurrences.PlacesSurviveIff | internal/engine/mutantid.go:18-22 | whatever replaces the items in front, an item keeps its text, and its number if and only if as many different items in front have the text as before |
| MutantIdentities.AssignIdentities | internal/engine/mutantid.go:23-53 | gives each edit that can be captured the identity of its text and occurrence, under its key |
| MutantIdentities.OccurrenceIsNumber | internal/engine/mutantid.go:18-22 | the occurrence of an edit is the number of different edits with its text in front of it in the walk |
| MutantIdentities.IdIsSpelled | internal/engine/mutantid.go:23-53 | the identity of an edit without header-like lines is file, mutator, removed and added lines, and its occurrence unless it is the first with them |
| MutantIdentities.IdsCoincideIff | internal/engine/mutantid.go:15-58 | two edits of one mutator in one file without NUL share an identity if and only if their occurrences are the same and their changed lines that do not read as headers |
| MutantIdentities.DistinctEditsDistinctIds | internal/engine/mutantid.go:15-58 | two different edits have different identities when none of the lines they change reads as a header, whatever other edits change |
| MutantIdentities.IdsSurviveIff | internal/engine/mutantid.go:18-22 | when the whole lines above a part of a file and the edits that start there change in any way, an edit in that part keeps its identity if and only if as many different edits above have its text |
| MutantIdentities.IdsSurviveInsertionIff | internal/engine/mutantid.go:18-22 | whole lines inserted anywhere, while the edits above keep their texts, change the identity of an edit below if and only if the inserted lines hold an edit with its text |
| MutantIdentities.IdsInFrontSurviveIff | internal/engine/mutantid.go:18-22 | whatever the file and the rest of a walk become, an edit of the first part of the walk whose lines hold no NUL keeps its identity if and only if it keeps its changed lines, apart from those that read as headers, and its occurrence in that part |
| MutantIdentities.IdsAboveSurviveIff | internal/engine/mutantid.go:18-22 | whatever text and edits replace those below, an edit inside the whole lines above, none of whose lines reads as a header or holds a NUL, keeps its identity if and only if its lines turn the same way above both texts and its occurrence among the edits above is the same |
| LostIdentities.HeaderEditsCollide | internal/engine/mutantid.go:23-53 | anywhere in one file, two edits that each change all of the lines they stand in share an identity when those lines, or the new ones, differ only in lines that read as headers |
| LostIdentities.ComparisonsCollide | mutator/expression/string_literal.go:37-55 | two comparisons with raw strings whose second lines are two minuses, a blank and different letters have mutants with one identity, whatever stands around them |
| LostIdentities.GoFileCollides | mutator/expression/string_literal.go:37-55 | a Go file with two such comparisons |
| LostIdentities.RepeatedLinesTakeId | internal/engine/mutantid.go:18-22 | repeating the lines of an edit above it, with the edit, gives the edit below another identity |
| LostIdentities.RepeatedCallTakesId | mutator/numbers/incrementer.go:19-45 | so it is for the incremented argument of a call, in any file, and the copy has the identity from then on |
| LostIdentities.RepeatedLineBelowLosesId | internal/engine/mutantid.go:18-22 | an edit that removes the last two lines above a text has another identity once the first of the two is repeated below |
| LostIdentities.EmptyLineBelowLosesId | mutator/branch/mutatecase.go:15-27 | so it is for the emptied case whose statement stands behind an empty line, once there is an empty line in front of the next case |
| MutantIdentities.FilteredEditHasFullRunId | internal/engine/engine.go:758-784 | whatever nodes and positions a filter drops and whatever part of the file is walked, each captured edit has an identity, that of its text and its occurrence in a full run |
| Handshake.CountWalk | walk.go:16-45 | counts the mutations of every node |
| Handshake.RecordingSeesOneMutation | walk.go:128-152 | in every run, the consumer records only while the walk is blocked and exactly the announced change is applied, and acknowledges the reset only with the tree restored |
| Handshake.NoDeadlock | internal/engine/engine.go:669-685 | in every run that is not finished some step is possible |
| Handshake.RecordedIsOneEdit | walk.go:128-152 | whatever has been recorded at any moment of a run is one mutation of the original tree |
| Handshake.EditsAreCounted | walk.go:14-45 | there are as many edits as CountWalk counts |
| Handshake.RunsComplete | walk.go:78-93 | every run is finite; one that cannot go on is finished, has restored the tree, recorded each mutation's edit once and in order, and announced as many as CountWalk counts |
| RecordedIdentities.CompleteRunIdentifies | internal/engine/mutantid.go:23-53 | however walk and consumer interleave, a complete run over a file has given every mutation of the parsed tree that can be captured the identity of its edit's text and its occurrence among all edits in walk order |
| BranchWalk.BranchFromIsMet | mutator/branch/mutateif.go:14-23 | the walk of a body meets exactly the bodies of its if statements, the blocks of its else branches, or the bodies of its cases, whichever the mutator is for, at any depth |
| BranchWalk.BranchesFromDiffer | mutator/branch/mutatecase.go:14-26 | and each of them once |
| BranchWalk.BranchWalkUndoes | mutator/branch/preserve.go:12-39 | under the walk each reset of a branch mutator undoes its change |
| BranchWalk.RecordedBodiesTerminate | walk.go:128-152 | at every moment of every run of the branch mutators over a terminating body with results, each recorded mutant is terminating and no execution of it falls off its end |
| BranchWalk.BranchWalkRestores | walk.go:78-93 | a run that cannot go on has recorded, in walk order, the mutant of each branch of the body that gets a replacement, and restored the body |
| FieldClear.ClearableAreTheClearable | mutator/composite/field_clear.go:44-48 | a mutation is made for exactly the keyed elements that are not zero and safe to remove, in order |
| FieldClear.MutatorFieldClear | mutator/composite/field_clear.go:34-66 | builds those mutations, allocates the scratch array apart from the literal's own, and leaves the literal alone |
| FieldClear.Clearing.Change | mutator/composite/field_clear.go:56-60 | shows the literal without its element, whatever the scratch array held |
| FieldClear.Clearing.Reset | mutator/composite/field_clear.go:61 | puts the original slice back |
| FieldClear.CallClosures | mutator/composite/field_clear.go:40-63 | in any order and number of uses each change shows its own edit despite the shared array, and the literal is as parsed afterwards |
| DefaultRemove.MutatorSelectDefaultRemove | mutator/select/default_remove.go:18-57 | there is a mutation exactly for a select with two clauses or more whose first default clause is safe to remove; it holds a copy of the clauses |
| DefaultRemove.Removal.Change | mutator/select/default_remove.go:46-48 | drops the clause by shifting the shared array, whose last place keeps its clause |
| DefaultRemove.Removal.Reset | mutator/select/default_remove.go:49-51 | installs the copy |
| DefaultRemove.WalkRepeatedly | mutator/select/default_remove.go:39-52 | any number of walks, each with its own mutation, see the removal and leave the clauses as they were |
| DefaultRemove.Reuse | mutator/select/default_remove.go:45-52 | a mutation that is used again shifts its own copy each time |
| DefaultRemove.ReuseRestoresIffLast | mutator/select/default_remove.go:45-52 | using a mutation again restores the select if and only if the default clause is the last |
| ReturnValue.CloneReturnWithZero | mutator/statement/return.go:105-113 | the clone has the zero value in one place and shares no array with the return |
| ReturnValue.MutateReturnResult | mutator/statement/return.go:67-103 | builds a mutation that will show and undo exactly one result's replacement, in place or by a swapped list |
| ReturnValue.MutateReturnStmt | mutator/statement/return.go:49-65 | builds one for each result with a replacement, in order |
| ReturnValue.MutatorReturnValue | mutator/statement/return.go:19-34 | does so for every return of a block |
| ReturnValue.SitesAreThePlanned | mutator/statement/return.go:19-65 | there is a site for each result of each return that gets a replacement, and for nothing else |
| ReturnValue.SitesInOrder | mutator/statement/return.go:19-65 | in the order of the block and of the results, so none twice |
| ReturnValue.ReplacedChangesOneResult | mutator/statement/return.go:67-103 | the printed block differs from the parsed one in the one result, and in the statement that uses the variables in front of it where there are any |
| ReturnValue.Change | mutator/statement/return.go:79-102 | writes the one result or installs the prepared list |
| ReturnValue.Reset | mutator/statement/return.go:79-102 | writes the result back or installs the original list |
| ReturnValue.CallClosures | mutator/statement/return.go:79-113 | in any order and number of uses each change shows its own replacement in the printed block and nothing else, and the block is as parsed afterwards |
| Scope.MutantScope.Admit | internal/engine/scope.go:49-64 | admits a candidate if and only if it is not outside the diff, no identity or its own is selected, and its checksum is neither blocked nor seen; gives the first of these rules that fails as the reason, and remembers only what it admits |
| Scope.AdmittedAreDistinct | internal/engine/scope.go:46-64 | over any sequence of candidates, admitted checksums are distinct, and each admitted candidate can be captured, is not outside the diff, is the selected one if one is selected, and is not blocked |
| Scope.InScopeIsAdmitted | internal/engine/scope.go:46-64 | each candidate with these properties is admitted or shares its checksum with an admitted one |
| Scope.FirstInScopeIsAdmitted | internal/engine/scope.go:46-64 | a candidate is admitted if and only if it has these properties and no earlier candidate that has them has its checksum |
| Pipeline.RunKeepsInv | internal/engine/engine.go:809-839 | at every moment every mutant found so far is in exactly one place: offered, queued, held by one worker, recorded or dropped |
| Pipeline.NothingIsRecordedTwice | internal/engine/engine.go:1064-1081 | over every interleaving, cancelled or not, no mutant is recorded more often than found, what has been admitted is what a sequential pass admits, none of it is blocked, outside the diff or other than the selected one, and nothing is offered to a closed channel |
| Pipeline.UncapturedIsError | internal/engine/engine.go:696-774 | at every moment, a mutant that could not be captured has been recorded as an error and as nothing else |
| Pipeline.UncapturedIsFound | internal/engine/engine.go:696-774 | each such mutant counts as found as often as discovery meets it |
| Pipeline.NoDeadlock | internal/engine/engine.go:1185-1194 | until discovery has stopped and all workers are gone some step is possible |
| Pipeline.RunsConserveMutants | internal/engine/engine.go:696-710 | every run is finite and ends with an empty channel and no workers; uncancelled, each mutant a sequential pass admits or fails to capture, as far as discovery got, is recorded exactly once, and discovery got through unless it met an error |
| Pipeline.ReportCountsEveryMutant | internal/engine/engine.go:1589-1612 | the total of an uncancelled run is the number of admitted mutants and capture failures as far as discovery got |
| Results.CompletedResults.Add | internal/engine/results.go:43-65 | appends to the list of the outcome, and the counts it returns add up to what has been recorded |
| Results.CompletedResults.Fill | internal/engine/results.go:84-101 | the report gets the lists in order with their counts; other fields keep their values |
| Results.TotalIsRecorded | internal/models/report.go:138-145 | the outcome counts add up to the number of recorded mutants |
| Results.StatsAreNumbers | internal/engine/results.go:68-85 | each count is the number of records with that outcome |
| Results.ComputeMutatorStats | internal/models/report.go:149-171 | counts each mutator's mutants by outcome, errors as killed, and lists only mutators with any |
| Results.MutatorTotalsConserve | internal/models/report.go:149-171 | the per-mutator totals add up to the total less the mutants not covered |
| Results.MutatorTotalsAreNumbers | internal/models/report.go:149-171 | a mutator's kills are its records that were killed or failed, and its other columns its records with that outcome |
| GitDiff.MergedIsCoalesced | internal/gitdiff/gitdiff.go:92-112 | merging ascending ranges keeps the covered lines and leaves gaps between ranges |
| GitDiff.MergeInPlace | internal/gitdiff/gitdiff.go:99-110 | merging into the front of the array that is still being read gives what merging a copy would |
| GitDiff.Coalesce | internal/gitdiff/gitdiff.go:92-112 | sorting and merging one file's ranges in place keeps exactly the covered lines and leaves separated ranges |
| GitDiff.CoalesceAll | internal/gitdiff/gitdiff.go:92-112 | does so for every file of the map, in any order |
| GitDiff.IsRelativeLineChanged | internal/gitdiff/gitdiff.go:114-123 | the binary search says that a line is changed if and only if some range of the file holds it, or the line is 0 |
| GitDiff.LongestMatchIsUnique | internal/gitdiff/gitdiff.go:150-157 | two matching paths of one length are equal |
| GitDiff.MatchesAtSlash | internal/gitdiff/gitdiff.go:150-170 | a path matches a key that is the path or what follows one of its slashes, and no other |
| GitDiff.LongestSuffixFile | internal/gitdiff/gitdiff.go:158-170 | finds the one longest matching path in whatever order the keys come |
| GitDiff.IsLineChanged | internal/gitdiff/gitdiff.go:125-148 | a line is changed if and only if it is 0 or the ranges of the longest matching file hold it |
| GitDiff.GitDiffExcludes | internal/engine/scope.go:66-78 | excludes a known line if and only if there is a filter and the line is not in it, by relative path where there is one |
| PerTestMerge.ApplyPerTestResult | internal/coverage/coverage.go:506-515 | appends the test's name to each line it covers |
| PerTestMerge.MergePerTestProfiles | internal/coverage/coverage.go:442-466 | yields nothing exactly when a profile was lost, and otherwise maps each covered line to the ascending, duplicate-free list of the tests that cover it |
| PerTestMerge.MergedIsUnique | internal/coverage/coverage.go:459-464 | the results determine the merged map, sorted and compacted lists included |
| PerTestMerge.MergeIgnoresOrder | internal/coverage/coverage.go:442-466 | results in another order merge to the same map |
| PerTestPool.NoDeadlock | internal/coverage/coverage.go:429-490 | until all results are received some step is possible, for any number of workers |
| PerTestPool.MergeReceivesEachResultOnce | internal/coverage/coverage.go:429-490 | every run is finite and ends with exactly one received result for each job, uncancelled a permutation of the jobs' results |
| PerTestPool.ProfileIsScheduleIndependent | internal/coverage/coverage.go:369-392 | two uncancelled runs with any numbers of workers and any schedules merge to the same map |
| PackagePattern.MatchNeedsFixedText | internal/importing/import.go:87-104 | a matching name starts with the text before the first three dots, or is that text without its final slash |
| PackagePattern.MatchIsFilling | internal/importing/import.go:91-104 | the names that match are those that texts without a newline in place of each three dots give |
| PackagePattern.PlainPatternMatchesItself | internal/importing/import.go:87-104 | a pattern without three dots matches itself alone |
| PackagePattern.TreePatternMatchesTree | internal/importing/import.go:87-104 | `foo/...` matches foo and every name below it, and nothing else |
| PackagePattern.PruningIsComplete | internal/importing/import.go:91-137 | whatever matches a pattern can be reached: the tree test holds of it and of all directories above it |
| PackagePattern.TreeTestIsExact | internal/importing/import.go:119-137 | and it holds of nothing else: of a directory if and only if some path at or below it matches |
| PackageWalk.WalkSrcDir | internal/importing/import.go:237-275 | the recursive walk lists a name if and only if it was not seen before, matches, and some path of directories, none of which is skipped, spells it and ends in one that holds a package; once each, and parents before children |
| PackageWalk.VisitAllLists | internal/importing/import.go:237-292 | the same of the order of the walk it follows, which sees exactly the names such paths spell |
| PackageWalk.VisitAllInOrder | internal/importing/import.go:237-275 | no name is listed twice or behind one below it |
| PackageWalk.PrunedWalkFindsAll | internal/importing/import.go:237-275 | with a complete tree test the pruned walk returns the packages of the unpruned one, in order, and later walks cannot tell the difference |
| PackageWalk.WalkSrcPackages | internal/importing/import.go:221-235 | over several source directories, only that of GOROOT for the pattern of the standard library, a name is listed if and only if it was not seen before, matches, and the first of them in which a path leads to it has a package there; once each, and parents before children |
| PackageWalk.VisitRootsLists | internal/importing/import.go:221-292 | the same of the function the loop is proved against |
| PackageWalk.PrunedRootsFindAll | internal/importing/import.go:221-275 | over all source directories, pruning changes no package and no order, whatever was listed before |
| PackageWalk.PatternWalkFindsAll | internal/importing/import.go:221-275 | so it does for every pattern |
| Hunk.ParseHunkHeader | internal/parser/diff.go:54-93 | an accepted header numbers its lines from one, and no line number of its ranges overflows |
| Hunk.HunkRangeIsReadBack | internal/parser/diff.go:72-93 | a printed range, with or without its count, is read back exactly when its line numbers fit 64 bits |
| Hunk.FirstChangedLine | internal/parser/diff.go:95-129 | the loop with its early stop computes the function the next rows are about |
| Hunk.PrintedHunkIsRead | internal/parser/diff.go:139-198 | from any point inside a printed hunk the rest is read to the first change, or to nothing when an addition has no line number |
| Hunk.ReadBodyIsPrinted | internal/parser/diff.go:139-191 | a body that is read to a line starts with a printed hunk of the header's counts |
| Hunk.FirstChangedLineIsExact | internal/parser/diff.go:95-198 | a line is returned if and only if the body starts with a printed hunk of the header's counts with a change whose first change is at that line, and no addition stands below line 2^63 - 1 |
| Hunk.AdditionBelowLargestLineIsLost | internal/parser/diff.go:178-198 | a proper hunk that is rejected |
| Hunk.FindOriginalStartLine | internal/parser/diff.go:24-52 | the loop computes the function the next rows are about |
| Hunk.FirstHeaderDecides | internal/parser/diff.go:24-52 | the first line the header expression matches decides, whatever stands above it |
| Hunk.NoHeaderNoLine | internal/parser/diff.go:24-52 | without such a line the answer is 0 |
| Hunk.PrintedDiffIsLocated | internal/parser/diff.go:24-93 | a printed header and hunk lead to the range's start plus the leading context, or to the line after an empty range |
| Hunk.WholeDiffIsLocated | internal/parser/diff.go:24-198 | for a whole diff, with any lines above its first header and any below its first hunk, the answer is that line |
| ClauseHeads.CollectClauseHeads | internal/engine/clause_heads.go:21-52 | the walk appends the heads of a tree in pre-order |
| ClauseHeads.NodeHeads | internal/engine/clause_heads.go:21-33 | when the nodes that hold clauses are well nested, a later head is properly inside an earlier one or does not meet it |
| ClauseHeads.Anchor | internal/engine/clause_heads.go:57-65 | the loop keeps the last head that holds the position |
| ClauseHeads.AnchorIsInnermost | internal/engine/clause_heads.go:54-65 | the anchor is the statement of the innermost head that holds the position, and there is none exactly when no head holds it |
| ClauseHeads.HeadsAreThoseOfSwitches | internal/engine/clause_heads.go:21-52 | the listed heads are exactly those of the clauses of every switch and select in the tree, however deep |
| ClauseHeads.AnchorIsClosestSwitch | internal/engine/clause_heads.go:54-65 | in terms of the tree: where a position stands between keyword and colon of some clause, the anchor is the switch of the closest such clause, and there is none elsewhere |
| LoopBreak.LoopBranchCollector.Walk | mutator/loop/break.go:41-62 | collects the branches the loop owns and leaves the depth counter as it was |
| LoopBreak.LoopBranchCollector.WalkScoped | mutator/loop/break.go:64-70 | collects a switch's or select's branches one level deeper and comes back to the level |
| LoopBreak.LoopBranchCollector.VisitBranch | mutator/loop/break.go:72-90 | adds an unlabelled continue at any depth, an unlabelled break at depth zero, and nothing else |
| LoopBreak.MutatorLoopBreak | mutator/loop/break.go:16-34 | answers with the branches of a loop and with nothing for other nodes |
| LoopBreak.EachBranchIsEmittedOnce | mutator/loop/break.go:16-90 | over a whole walk the mutations are exactly the unlabelled continues of a loop and the unlabelled breaks whose innermost enclosing loop, switch or select is a loop |
| LoopBreak.EmittedAreLoopBranches | mutator/loop/break.go:16-90 | a mutation is made if and only if an unlabelled continue stands with a loop around it in its function, or an unlabelled break whose innermost enclosing loop, switch or select is a loop; it turns the one into the other |
| LoopBreak.NoBranchIsEmittedTwice | mutator/loop/break.go:16-90 | none of them is made twice |

## Left out

* Running tests, git, diff and compilers, files, signals, temporary directories, console and report writers: input and output. What they return is a parameter.
* Type information is given as maps, the printer as the text of an edit, and regular-expression matching of a hunk header as a function of the line; none of them is modelled.
* The MD5 sum of an identity: the theorems are about the text that is hashed, so "different identities" holds up to a collision.
* Bytes are characters; a file is a string.
* Malformed syntax trees with nil bodies: the source's nil checks are for trees the parser does not produce.
- Soundness.TerminatingIsSound: `goto` can jump to a statement of any list around it, as Go allows, and never into a block.
- IdentifierIndex.Index.Query: the query of a well-formed tree whose siblings stand in order, which every parsed file is; a tree that a mutation has changed is not covered, and nodes are told apart by position instead of by pointer. The mutex and the map from type information to index are not modelled.
- GoSort.SortIsSorted: Go's sort is not stable; one stable order is modelled, and the theorems that use it hold of distinct positions or of covered lines.
- BranchMutation.FuncBody.MutateBranchBody: whether a zero return can be written and whether emptying the branch loses an import are parameters; the text of the statement that keeps variables used is not modelled.
- Handshake.RunsComplete: an uncancelled walk; a cancelled one can stop with a change still applied. It assumes of a mutator that each reset undoes its change as a function of the tree. BranchWalk.BranchWalkUndoes proves this of the branch mutators. The closures that work through shared arrays leave those arrays changed, so they are proved about sequences of changes and resets instead (FieldClear.CallClosures, DefaultRemove.WalkRepeatedly, ReturnValue.CallClosures) and not composed with the handshake.
- Pipeline.RunsConserveMutants: the progress monitor, the dry-run sink and the result store's mutex are left out; a store update is one step.
- PerTestPool.MergeReceivesEachResultOnce: a result is a profile or lost; how a profile file is parsed is left out.
- PackageWalk.PrunedWalkFindsAll: the walk of a source tree only. `walkCmdPackages` tests a name before it adds `cmd/`, so no such theorem holds of it.
- ReturnValue.MutatorReturnValue: the zero value of a type, the unsafe variables and annotations are one parameter, the plan.
- ClauseHeads.AnchorIsInnermost: for trees as parsed, where the nodes that hold clauses, and the heads and bodies of clauses, are properly nested. Nodes without clauses below them may stand anywhere.
- TextBelow.EditLinesSurviveBelowIff: as MutantIdentities.IdsAboveSurviveIff, for edits after which the text above still ends in a newline, as every statement of a formatted file; an edit that joins its last line with the text below is not covered.
* The rewriting of number literals, which is arithmetic on one value, and its table of type bounds.
* Operator tables, option parsing, selectors, quality gates, baseline files: easy members.
