# Verified model of the carve exchange layer

This project models, in Dafny, the parts of carve that work on trees and texts by algorithms whose result has a simple
meaning, and proves that the algorithms have that meaning:

- **Exchange trees** (`JsonTree`, `Ordering`, `Decimal`, `Places`, `Metadata`). JSON trees and the places in them, their
  form without metadata (`Clean`), and equality as JSON sees it. JSON equality does not see the sign of zero, so `-0.0`
  and `0.0` are kept apart and compared alike.
- **Structural interning** (`Fingerprints`). The explicit-stack walk that gives every value an id, children first. Equal
  ids mean equal clean forms.
- **Tree diff and replay** (`Pointers`, `AstPatch`, `PatchEdits`, `PatchPlaces`, `AstPatchReplay`, `AstPatchLaws`). JSON
  Pointer paths (sections 3 and 4 of RFC 6901), exactly which operations the diff has, what any operation does at its
  place and nowhere else, replay in any order, and undo.
- **Three-way merge** (`TextRuns`, `TextSeen`, `Hints`, `MatchSides`, `ExactPairs`, `GreedyPass`, `MergeOrder`,
  `SequencePlan`, `PairingLaws`, `MergeTurns`, `AdditionPlaces`, `PlanDecided`, `MergeSpec`, `MergeConflicts`,
  `MergeOutcomes`, `MergeExact`, `MergeUnique`, `MergeFindings`, `MergeUnmoved`, `MergeMoves`, `AstMerge`,
  `AstMergeLaws`, `MergeWays`, `LostRewrap`). Four matching passes and what they pair, the topological order of a merged
  sequence and exactly which moves rule one out, which additions count as one, the recursive merge with its path and
  conflict list, exactly when it gives up and what it reports then, that there is one merge at most, and what it keeps
  of either side's edits on any way down from the documents.
- **Sidecars** (`SpanShift`, `Utf8`, `TextMetrics`, `DocumentText`, `Provenance`). Spans carried through edits of the
  source, the stretch of the document's text that each node covers, and source chains.
- **Fast indexes** (`SkewJumps`, `CodeTicks`, `DivStack`, `DivHistory`, `CitationItems`, `CitationText`,
  `CitationBrackets`, `CitationGroups`). Each agrees with the slow scan it replaces, and that with what the text or the
  lines say.
- **Ids** (`DocumentIds`), **BBCode** (`MarkParser`, `MarkPairs`, `Marks`, `MarkEvents`, `Stash`, `CivilDate`) and
  **carrier markers** (`Carrier`, `CarrierSets`).

Code that changes things step by step is a method or a class whose `ensures` ties it to a function or relation; the laws
are lemmas about those functions and relations.

## What was found

- A zero whose sign alone changed is not in a patch. Replay reaches the target up to JSON equality, and exactly the target
  if and only if both trees spell the zeros they share alike (`AstPatchLaws.PatchThenReplay`). The payload of a block
  extension shows it on two documents (`AstPatchLaws.ZeroSignIsNotPatched`). For any fingerprint, undo is accepted if
  and only if what the forward patch gave has the fingerprint of the target, which it does where the zeros agree
  (`AstPatchLaws.ForwardThenInverse`). With a fingerprint that sees the sign, the forward patch between those two
  documents is accepted and its undo refused (`AstPatchLaws.ZeroSignIsNotUndone`).
- The paragraph shortcut of the merge answers with ours when both sides' joined lines agree. A rewrap that only theirs made
  is lost if and only if every value above the paragraph, up to the document, was changed by both sides, differently
  (`MergeWays.TheirEditSurvivesIff`). It happens to a paragraph of a document whose id ours changed, and without a conflict
  (`LostRewrap.RewrapIsLost`), for example where theirs broke the line `a b` in two (`LostRewrap.BreakIsLost`). Our edits
  are never lost that way (`MergeWays.OurEditSurvives`).
- Where the sides share no addition, a sequence is given up exactly over additions that collide or moves that cannot be
  reconciled (`MergeMoves.BlockedIff`): both sides moved base items, and not alike; or one did, and the other put
  additions between two neighbours that the first has the other way round. A move and an addition elsewhere never
  conflict.
- Beyond 1,000,000 candidate pairings the last matching pass takes the longest prefix of the base kinds that embeds, and no
  longest common subsequence: one heading that is gone hides a thousand paragraphs (`GreedyPass.OneHeadingHidesAll`). It
  is a longest one if and only if no cut of the side gains more behind it than it costs before it
  (`GreedyPass.GreedyIsLongestIff`). This and the simpler conditions are stated over the two lists of kinds, of which the
  length of that prefix is a function (`GreedyPass.GreedyIsFront`, `GreedyPass.GreedyIsLongestWhen`,
  `GreedyPass.GreedyIsNotLongestWhen`, `GreedyPass.GreedyIsLongestIffNoneLeft`).
- A hint joins the type of a node, a place and a name with colons. With a colon in a type two different nodes can have one
  hint (`Hints.HintsCollide`); without, hints are equal if and only if type, place and name are (`Hints.HintsTell`).
- Escaping a carrier payload leaves `-->` in it if and only if an odd run of three dashes or more stands directly before
  `>`; such a marker does not read back (`Carrier.EscapeTerminatesIff`, `Carrier.ThreeDashesAreLost`).
- The comment on `parse_marks` says that a closing tag that does not match the innermost open one stays literal text. The
  code drops it (`MarkParser.ParseMarks`).
- The comment on `carrier_set_closers` asks for every attribute line to stand against an opener. The code accepts such a
  line anywhere, even alone (`CarrierSets.LineAlonePasses`). In a set that passes, all lines stand against openers if and
  only if none directly precedes the end or a fence that closes the innermost open one
  (`CarrierSets.LinesStandAgainstOpenersIff`).

## Model

| member | source | states |
|---|---|---|
| Fingerprints.Fingerprints.Add | src/ast_fingerprint.rs:41-93 | the walk ends, gives the new root and everything below it ids, and keeps all ids given before |
| Fingerprints.Fingerprints.VisitTop | src/ast_fingerprint.rs:44-91 | one round of the walk keeps its invariant (a child's id is only looked up once it has one) and shrinks the work left |
| Fingerprints.Fingerprints.Intern | src/ast_fingerprint.rs:89-91 | a key gets the id it had or the next free one, and the table still describes one tree per id |
| Fingerprints.Fingerprints.ChildIds | src/ast_fingerprint.rs:78-87 | the ids of the children are those of their trees under the policy, in order |
| Fingerprints.Fingerprints.SameIdIffSameMeaning | src/ast_fingerprint.rs:17-94 | under any policy two values have one id if and only if they are equal once stripped |
| Fingerprints.Fingerprints.SameIdIffSameCleanForm | src/ast_fingerprint.rs:37-39 | under the policy of merge and patch, ids agree if and only if the clean forms are JSON-equal |
| Fingerprints.Fingerprints.SharedIsSound | src/ast_merge.rs:91-104 | once the three documents are interned, ids compare equal if and only if the clean forms do, wherever the values stand |
| JsonTree.CleanTwice | src/ast_patch.rs:189-213 | cleaning a clean form changes nothing |
| Metadata.CleanHolds | src/ast_patch.rs:189-213 | at every path the clean form holds what the tree holds, unless the path passes a `pos` or a `srcByteLength` before any `keyValues` |
| Metadata.MeaningHolds | src/ast_fingerprint.rs:49-53 | the same of what an id stands for, under any policy |
| Metadata.StampHolds | src/ast_merge.rs:780-783 | a merged document holds what the merge gave at every path that passes no metadata, and the source length 0 at its root |
| Decimal.PrintOneMore | src/ast_patch.rs:249 | a numeral grows by one decimal digit |
| Pointers.DecodePointer | src/ast_patch.rs:308-319 | decoding undoes encoding for every list of segments |
| Pointers.EscapeIsReversible | src/ast_patch.rs:225-233 | unescaping a segment undoes escaping it, for every string |
| Pointers.WritePointer | src/ast_patch.rs:225-233 | the loop writes the pointer of the segments |
| Pointers.StripsMetadataOfPointer | src/ast_patch.rs:215-217 | the strip flag read off a pointer is the one carried down its path |
| AstPatch.PatchBuilder.Build | src/ast_patch.rs:235-287 | appends exactly the edits between the two values, under the current path, and restores path and flag |
| AstPatch.CreateAstPatch | src/ast_patch.rs:290-306 | the operations are the edits between the two documents |
| PatchEdits.OperationIff | src/ast_patch.rs:235-288 | an operation is in the patch if and only if both documents go down its path through objects, or arrays of one length, past no metadata, and at its end need just that change: one lacks the value, or the values differ and cannot be gone into |
| AstPatch.ApplyAstPatch | src/ast_patch.rs:416-455 | replay applies all operations to the clean document, checks the root and resets `srcByteLength`; `PatchPlaces` says what that is |
| PatchPlaces.ApplyOperationIs | src/ast_patch.rs:346-413 | any operation at any path: it fails if and only if a component is missing, no index or out of range; the value put in or exchanged stands at the path, items behind an index move by one, and nothing else changes |
| PatchPlaces.ApplyAtRoot | src/ast_patch.rs:427-437 | at the empty path the tree is exchanged and never removed; other paths begin with a slash |
| PatchPlaces.StripsMetadataOfParts | src/ast_patch.rs:215-217 | for every path that decodes, metadata is stripped unless a component is `keyValues` |
| PatchPlaces.ReplayedIs | src/ast_patch.rs:416-455 | a patch is accepted if and only if its operations lead, tree by tree, to a document root; the result is that root with its length reset |
| AstPatchReplay.ReplayEdits | src/ast_patch.rs:346-413 | the edits apply without failure to any tree equal to the clean `before` and give the clean `after` |
| AstPatchReplay.UpdateIsApplyOperation | src/ast_patch.rs:346-413 | replay of an encoded operation is the update at the decoded path |
| AstPatchReplay.EqualUpToZeros | src/ast_patch.rs:242-246 | JSON-equal clean forms are identical if and only if the zeros agree in sign |
| AstPatchLaws.EditsAreIndependent | src/ast_patch.rs:242-286 | no operation's path is a prefix of another's |
| AstPatchLaws.UpdatesCommute | src/ast_patch.rs:346-413 | updates at independent paths commute |
| AstPatchLaws.EmptyPatchMeansEqual | src/ast_patch.rs:242-246 | there are no operations if and only if the clean trees are equal |
| AstPatchLaws.ReplayInAnyOrder | src/ast_patch.rs:416-455 | the operations in any order never fail and give the same tree, which cleans like `after` |
| AstPatchLaws.PatchThenReplay | src/ast_patch.rs:416-455 | on documents: replay succeeds if and only if the target is a document root, and reaches it; exactly if and only if the zeros agree |
| AstPatchLaws.CreateReversibleAstPatch | src/ast_patch.rs:58-68 | both directions, each with the fingerprint of the document it starts from |
| AstPatchLaws.ApplyReversibleAstPatch | src/ast_patch.rs:71-94 | refused unless the document has the fingerprint of the direction; else the operations of that direction are replayed |
| AstPatchLaws.ForwardThenInverse | src/ast_patch.rs:58-94 | for any fingerprint: the forward patch gives the target, exactly if and only if the shared zeros agree in sign; undo is accepted if and only if the result has the fingerprint of the target, and restores the document where the zeros agree |
| AstPatchLaws.UndoIsRefused | src/ast_patch.rs:71-94 | between documents with an empty patch and different fingerprints, the forward patch is accepted and the undo refused |
| AstPatchLaws.ZeroSignIsNotUndone | src/ast_patch.rs:71-94 | so it is for two document roots that differ in the sign of a zero |
| AstPatchLaws.ZeroSignIsNotPatched | src/ast_patch.rs:242-246 | two document roots whose extension payloads differ in the sign of a zero have an empty patch |
| TextRuns.MergedTextRun | src/ast_merge.rs:106-158 | gives the joined form if and only if every node has a type and at least one is text or a soft break |
| TextRuns.JoinKeepsAtoms | src/ast_merge.rs:106-158 | joining lines changes no character and no other node |
| TextRuns.JoinLeavesNoBreak | src/ast_merge.rs:106-158 | no soft break is left after joining |
| TextSeen.JoinTellsSeen | src/ast_merge.rs:106-158 | where text nodes hold nothing but some text, joined forms are identical if and only if the characters and the other nodes are |
| TextRuns.AlikeMeansSameText | src/ast_merge.rs:636-654 | paragraphs with equal clean forms have the same joined text |
| Hints.HintIff | src/ast_merge.rs:183-202 | a node has a hint if and only if its label, reference, name or attribute id is a string |
| Hints.HintsTell | src/ast_merge.rs:183-202 | of nodes without a colon in their types, hints are equal if and only if types are and the first of these places that holds a string is the same and holds the same |
| Hints.HintsCollide | src/ast_merge.rs:183-202 | two different nodes with one hint |
| Hints.KindsTell | src/ast_merge.rs:169-181 | kinds are equal if and only if both values are nodes of one type, or no nodes and of one sort |
| MatchSides.ExactPass | src/ast_merge.rs:222-234 | a bijection that pairs the n-th occurrence of an id with the n-th, as far as both lists go |
| MatchSides.ExactPairsAgree | src/ast_merge.rs:229-234 | items paired by the first pass have the same id |
| MatchSides.ExactPairsAsOftenAsShared | src/ast_merge.rs:222-234 | the first pass pairs each id as often as both lists contain it |
| ExactPairs.NoneLeftOver | src/ast_merge.rs:222-234 | of two equal ids, one on each side, one is paired |
| ExactPairs.FirstWithFirst | src/ast_merge.rs:222-234 | of two equal ids of the base the earlier is paired if the later is, and with an earlier item |
| MatchSides.UniqueKeyPass | src/ast_merge.rs:245-281 | adds exactly the pairs whose hint, or kind, is unique among the unpaired items of both lists |
| MatchSides.LcsIsLongest | src/ast_merge.rs:288-297 | no common subsequence is longer than the table says |
| MatchSides.FillTable | src/ast_merge.rs:288-297 | every cell holds the longest length for its two suffixes |
| MatchSides.WalkIsLongest | src/ast_merge.rs:298-309 | the walk that skips a base item where that costs nothing gives a common subsequence of the longest length |
| MatchSides.TablePairs | src/ast_merge.rs:298-309 | the loop over the table gives exactly the pairs of that walk, ties included |
| MatchSides.EmbedIsLongest | src/ast_merge.rs:311-321 | no other way to place the first base kinds in the side places more of them |
| MatchSides.GreedyPairs | src/ast_merge.rs:311-321 | beyond the bound: exactly the pairs that give each base kind its next place, the longest prefix of the base kinds that embeds |
| GreedyPass.GreedyIsFront | src/ast_merge.rs:311-321 | beyond the bound the pass pairs the front of the base kinds, within the used part of the side; both are functions of the two lists |
| GreedyPass.GreedyIsLongestIff | src/ast_merge.rs:310-321 | that is a longest common subsequence if and only if no cut of the side gains more than it costs |
| GreedyPass.GreedyIsLongestWhen | src/ast_merge.rs:310-321 | it is one if all base items are placed, all side items are used, or no kind that is left occurs in the side |
| GreedyPass.GreedyIsNotLongestWhen | src/ast_merge.rs:310-321 | it is none if a kind that is left occurs behind the places used |
| GreedyPass.GreedyIsLongestIffNoneLeft | src/ast_merge.rs:310-321 | where the kinds left occur behind those places or nowhere, it is one if and only if they occur nowhere |
| GreedyPass.GreedyPairsIffFirstKindOccurs | src/ast_merge.rs:310-321 | anything is paired if and only if the first remaining base kind occurs |
| GreedyPass.OneHeadingHidesAll | src/ast_merge.rs:282-321 | a heading before 1000 paragraphs against the paragraphs: the pass pairs none, a longest subsequence has all 1000 |
| MatchSides.RestPass | src/ast_merge.rs:282-326 | a bijection that adds the pairs of the walk or, beyond the bound, of the greedy loop; the additions are exactly the unpaired side indices |
| PlanDecided.MatchedIsDecided | src/ast_merge.rs:210-327 | the versions decide the pairing of both sides |
| PlanDecided.PlanIsDecided | src/ast_merge.rs:486-541 | the versions and the base items left out decide tokens, survivors and additions of a plan |
| PlanDecided.CyclesAreDecided | src/ast_merge.rs:549-615 | of two plans of the same versions that leave out the same items both have a cycle or none |
| MatchSides.MatchSide | src/ast_merge.rs:210-327 | the four passes in their order, each on what the one before left |
| PairingLaws.EqualFirst | src/ast_merge.rs:222-234 | the first pass pairs exactly those that are paired in the end and equal |
| PairingLaws.NoEqualIsLeft | src/ast_merge.rs:222-234 | of two equal items, one on each side, one is paired with an equal one |
| PairingLaws.EqualInOrder | src/ast_merge.rs:229-234 | pairs of equal items do not cross |
| PairingLaws.EarlierIsEqual | src/ast_merge.rs:222-234 | an item before a paired one, and equal to its partner, is paired with an equal one too |
| PairingLaws.NamedNext | src/ast_merge.rs:245-263 | the second adds exactly the two items that alone have their hint among those without an equal partner |
| PairingLaws.KindNext | src/ast_merge.rs:264-281 | the third adds exactly the two items that alone are of their kind among those left then |
| PairingLaws.UniqueArePaired | src/ast_merge.rs:210-327 | so two items that alone have their hint, or their kind, at their turn are always paired |
| PairingLaws.RestIsOfOneKind | src/ast_merge.rs:282-326 | two items paired in no such way are of one kind |
| PairingLaws.RestIsInOrder | src/ast_merge.rs:282-326 | and such pairs do not cross |
| MergeOrder.Sort | src/ast_merge.rs:573-604 | always takes the first ready token, and stops only when none is ready |
| MergeOrder.SortedIffAcyclic | src/ast_merge.rs:595-615 | all tokens are sorted if and only if the edges have no cycle; the order then lists each once and respects every edge |
| MergeOrder.LeastOrder | src/ast_merge.rs:582-604 | of all topological orders the sort gives the least |
| MergeOrder.OrderTokens | src/ast_merge.rs:549-615 | an order comes out if and only if some order suits the constraints of the sides, and of those it is the one with the earliest tokens; equivalently, the constraints have no cycle |
| MergeOrder.MergeKeepsOrders | src/ast_merge.rs:549-572 | a side that moved base items keeps its whole order, and both do if neither moved any |
| MergeTurns.OutOfTurn | src/ast_merge.rs:582-604 | base items go ahead of our additions, and those of theirs, unless another token that must come first stands between |
| SequencePlan.TableOfHints | src/ast_merge.rs:471-485 | the table tells for each place and hint whether an addition of theirs differs |
| SequencePlan.Collide | src/ast_merge.rs:486-503 | a collision is found if and only if both sides added, in one place and under one hint, different things |
| AdditionPlaces.SamePlaceIs | src/ast_merge.rs:345-357 | two additions are in one place if and only if the nearest paired items before them, and those behind them, have the same base partners or are missing alike |
| AdditionPlaces.ClashIff | src/ast_merge.rs:486-503 | additions collide if and only if there are one of ours and one of theirs between the same base partners, under one hint, and different |
| SequencePlan.PlaceAdditions | src/ast_merge.rs:504-522 | equal additions in one place are paired, first with first, and every addition gets its token and value |
| AdditionPlaces.SharedAreTogether | src/ast_merge.rs:504-522 | additions share a token only if they are equal and sit between the same base partners |
| AdditionPlaces.NoneIsLeftOut | src/ast_merge.rs:504-522 | of two such additions one at least shares a token |
| AdditionPlaces.EarlierOfOurs | src/ast_merge.rs:504-522 | they share first with first: the earlier of ours with an earlier of theirs |
| AdditionPlaces.EarlierOfTheirs | src/ast_merge.rs:504-522 | the same the other way round |
| AdditionPlaces.SharedOnce | src/ast_merge.rs:504-522 | none shares tokens with two |
| AdditionPlaces.BothStand | src/ast_merge.rs:504-621 | two that share no token stand in the merged sequence side by side, each in a place of its own |
| AdditionPlaces.ApartBothStand | src/ast_merge.rs:504-621 | so do equal additions between different base items |
| SequencePlan.PlanListsEachOnce | src/ast_merge.rs:523-541 | the order holds once each: the survivors, our additions, and theirs that equal none of ours in place |
| SequencePlan.AllValued | src/ast_merge.rs:616-621 | no token of the order is without a value, so none is dropped at the end |
| SequencePlan.PlanKeepsOrders | src/ast_merge.rs:549-621 | the order statement for the tokens of a plan |
| SequencePlan.Arrange | src/ast_merge.rs:504-621 | a merged sequence comes out if and only if some plan fits the pairings and the surviving items, equal additions being shared in order whatever comes of it; it is then collected from such a plan |
| SequencePlan.PutTogether | src/ast_merge.rs:468-621 | the same, if and only if nothing collides as well |
| SequencePlan.NoneFits | src/ast_merge.rs:504-615 | the inputs decide the tokens, so where one plan of theirs has a cycle none fits |
| AstMerge.Merger.MergeValue | src/ast_merge.rs:624-722 | the result is what `Merges` says as long as no conflict is added; of two versions both there nothing comes if and only if the merge gives up; every conflict added is recorded on the way, and every one on this way or below it is found; path and flag are restored |
| AstMerge.Merger.MergeSettled | src/ast_merge.rs:633-663 | a version is taken as a whole if and only if two of the three agree, as trees or as joined lines, and it is the right one |
| AstMerge.Merger.MergeText | src/ast_merge.rs:633-654 | which version of a paragraph is taken when the joined lines of two agree |
| AstMerge.Merger.MergeObject | src/ast_merge.rs:679-712 | every member of any version is merged on its own, and no other is there |
| AstMerge.Merger.MergeBaseItem | src/ast_merge.rs:403-467 | an item both sides have is merged; one that a side dropped goes if the other left it alone |
| AstMerge.Merger.DropItem | src/ast_merge.rs:411-449 | a dropped item makes one conflict if the other side changed it, and none if that side left it alone; all conflicts at it are found |
| AstMerge.Merger.MergeSequence | src/ast_merge.rs:390-622 | without a new conflict the array is collected from a plan that fits the pairings |
| AstMerge.Merger.FinishSequence | src/ast_merge.rs:468-621 | the sequence is given up if and only if its versions collide, or constrain each other in a circle once exactly the items dropped or given up are left out |
| AstMerge.Merger.RecordConflict | src/ast_merge.rs:359-388 | one conflict is appended, at the current path, and only where the merge gives up for that reason |
| AstMerge.MergeAst | src/ast_merge.rs:747-785 | a document if and only if the merge gives up at no value on any way down through versions both sides changed; it is then merged as specified, and no other document is; otherwise the conflicts are exactly those, each with the reason that holds there |
| MergeExact.MergedGivesUpNowhere | src/ast_merge.rs:624-722 | where a merge as specified exists, no value on any way is given up |
| MergeUnique.MergesIsOne | src/ast_merge.rs:624-722 | three versions have one merge at most |
| MergeFindings.RecordedAreFound | src/ast_merge.rs:359-388 | what is found from the start downwards is every conflict that three documents have |
| MergeUnmoved.UnmovedIsAcyclic | src/ast_merge.rs:549-572 | if no side moved a base item and no addition is shared, the constraints have no cycle |
| MergeUnmoved.BlockedOnlyBy | src/ast_merge.rs:468-621 | a sequence is given up only over a collision, over base items a side moved, or over additions both sides made |
| MergeMoves.AcyclicIff | src/ast_merge.rs:549-572 | if no addition is shared, the constraints have no cycle if and only if neither side moved a base item, both moved them alike, or one did and the other has no additions between two neighbours it turned round |
| MergeMoves.BlockedIff | src/ast_merge.rs:468-621 | without shared additions a sequence is given up if and only if two additions collide or the moves cannot be reconciled in this sense |
| AstMergeLaws.OursWhereTheirsIsUnchanged | src/ast_merge.rs:655-663 | what theirs left alone is ours |
| AstMergeLaws.TheirsWhereOursIsUnchanged | src/ast_merge.rs:636-663 | what ours left alone is theirs, unless joining lines undoes all of the change |
| MergeWays.ItemIsMerged | src/ast_merge.rs:403-467 | a base item both sides kept is merged on its own and stands at its place; one a side dropped is gone and the other side left it alone |
| MergeWays.OurEditSurvives | src/ast_merge.rs:390-722 | on any way down through members and items, where theirs equals the base the merge equals ours |
| MergeWays.TheirEditSurvivesIff | src/ast_merge.rs:390-722 | on any such way, where ours equals the base the merge equals theirs if and only if their change is no lost rewrap |
| MergeWays.LostRewrapIsOurs | src/ast_merge.rs:636-654 | what stands in place of a lost rewrap is ours |
| LostRewrap.RewrapIsLost | src/ast_merge.rs:636-654 | three documents: the paragraph whose id ours changed and whose lines theirs rewrapped merges without a conflict and keeps the lines of the base |
| LostRewrap.BreakIsLost | src/ast_merge.rs:636-654 | so it is with a paragraph `a b` that ours gave another id and theirs broke in two |
| LostRewrap.MergeRewrapped | src/ast_merge.rs:747-785 | run on such documents the merge gives a document without the rewrap |
| AstMergeLaws.SequenceHolds | src/ast_merge.rs:399-541 | which items a merged sequence holds |
| AstMergeLaws.SequenceCollectsAll | src/ast_merge.rs:616-621 | one element per token of the order, in order |
| SpanShift.Validate | src/incremental.rs:125-141 | accepted if and only if the changes are disjoint, in bounds and split no character; which of the three a refusal names |
| SpanShift.Rewrite | src/incremental.rs:142-148 | the loop builds the new source |
| SpanShift.StretchIsKept | src/ast_sidecars.rs:172-203 | an untouched stretch, shifted by the sum of length changes before it, holds the same text |
| SpanShift.BoundaryIsKept | src/ast_sidecars.rs:190-203 | at the shifted place a character begins in the new source if and only if one did in the old |
| Utf8.BoundaryIff | src/incremental.rs:134-135 | in encoded text a place lies between characters if and only if the bytes before it are those of the first characters |
| SpanShift.Shift | src/ast_sidecars.rs:190-203 | the single overlap test passes if and only if no change touches the span; the shifted span then covers the same bytes and cuts characters no more than it did |
| TextMetrics.Walk | src/ast_sidecars.rs:486-520 | the work-list walk records what the recursive measure does |
| TextMetrics.MeasureText | src/ast_sidecars.rs:483-521 | each typed node has the start and length of the recursive preorder measure |
| TextMetrics.MeasureRecords | src/ast_sidecars.rs:488-491 | the measure of a node is recorded under its own path |
| TextMetrics.IntervalsNest | src/ast_sidecars.rs:483-521 | the text of a node lies within the text of every node above it |
| TextMetrics.SiblingsFollow | src/ast_sidecars.rs:504-516 | what lies below an earlier child ends before anything below a later one begins |
| DocumentText.MeasureDocument | src/ast_sidecars.rs:483-521 | a place is measured if and only if it is reached over text fields and holds a node; its start is the size of all text before it and its length that of its own text |
| DocumentText.TextStands | src/ast_sidecars.rs:483-521 | in the text of the document that of a node stands right behind all text before it |
| DocumentText.ItemsInOrder | src/ast_sidecars.rs:512-516 | of two items of one array all text of the earlier ends before any of the later begins |
| DocumentText.WithinText | src/ast_sidecars.rs:483-521 | the text of a place lies within that of every place above it |
| Provenance.TableOf | src/ast_sidecars.rs:525-540 | there is a table of parents if and only if no id, uri or format is empty and no id comes twice; the first bad source decides the refusal |
| Provenance.Follow | src/ast_sidecars.rs:543-556 | one chain is fine if and only if it ends at a known source without parent, whatever was followed before; a cycle or unknown source reported is one |
| Provenance.ValidateSources | src/ast_sidecars.rs:525-557 | the sources are fine if and only if no text is empty, ids are distinct and every chain ends |
| Provenance.NoEndInCycle | src/ast_sidecars.rs:549-551 | a source that is its own ancestor has a chain without end |
| CodeTicks.FindRuns | src/djot_migrate.rs:5930-5935 | the table lists, by width and in order, exactly the maximal backtick runs |
| CodeTicks.ScanTicks | src/djot_migrate.rs:5945-5959 | the runs that open, skipping escaped characters, with their widths |
| CodeTicks.OpenersAre | src/djot_migrate.rs:5945-5959 | the runs that open are the unescaped backticks that no unescaped backtick precedes, an odd number of backslashes before it escaping a character |
| CodeTicks.CloseRunIsNext | src/djot_migrate.rs:5991-5997 | a span closes at the next run of its own width, else at the end of the text |
| CodeTicks.EndsGrow | src/djot_migrate.rs:5974-5982 | ends strictly increase along the chain of spans |
| CodeTicks.Link | src/djot_migrate.rs:5970-5986 | links lead to the next span, and every jump to the ancestor of the skew-binary depth |
| CodeTicks.CodeTicks.Balanced | src/djot_migrate.rs:6003-6018 | the jumping search answers like the rescan span by span, in at most 3 steps per binary digit of the number of spans, and 3 more; at any `]` or `)` of a text with a link, whether all spans of the text that open before it from the start on also close before it |
| SkewJumps.StepsAreLogarithmic | src/djot_migrate.rs:5974-6018 | any ancestor is reached in logarithmically many steps |
| SkewJumps.JumpExtends | src/djot_migrate.rs:5982-5986 | merging two equal jumps gives the jump of the next depth |
| DivStack.MinimumIs | src/djot_migrate.rs:3283-3290 | the stored minimum is the least width of its scope so far, so it never grows |
| DivStack.Divs.Search | src/djot_migrate.rs:3255-3265 | the binary search finds the outermost div of the scope that is no wider than the fence |
| DivStack.Divs.Leave | src/djot_migrate.rs:3152-3165 | leaving quotes and items drops exactly the divs opened in them |
| DivStack.Divs.Close | src/djot_migrate.rs:3253-3279 | truncation closes that div and everything inside it, innermost first |
| DivStack.Divs.ScanAll | src/djot_migrate.rs:3242-3302 | over any lines the fast stack closes the same divs on the same lines as a plain list with a linear scan |
| DivStack.ClosesOutermost | src/djot_migrate.rs:3245-3281 | what the plain list does: the outermost fitting div of the scope, all inside it, nothing around it |
| DivHistory.OpenIff | src/djot_migrate.rs:3242-3302 | a div is open if and only if its line was a visible fence that could open and closed nothing, and no later line left or closed it |
| DivHistory.LeavesIs | src/djot_migrate.rs:3152-3165 | a line leaves a div if and only if it can begin a block and stands outside its quote or, with text, left of its item |
| DivHistory.ScanDocument | src/djot_migrate.rs:3242-3302 | from the first line on, the stack holds just those divs, with the width, depth, offset and item of their lines, and each line closes those that it must, innermost first |
| CitationItems.ParseKey | src/citations.rs:581-613 | the key loop ends where the key does, if there is one |
| CitationItems.ParseItem | src/citations.rs:341-390 | an item is accepted if and only if, trimmed, it has an unescaped `@key` before a comma or its end |
| CitationItems.AcceptsIffValid | src/citations.rs:341-390 | an item parsed on its own is accepted if and only if it is valid where it stands in the text |
| CitationText.AcceptedIff | src/citations.rs:341-390 | an item is accepted if and only if a key stands in it behind an unescaped `@`, before a comma or nothing but blanks |
| CitationText.KeyClasses | src/citations.rs:581-613 | which characters a key begins with and goes on with |
| CitationBrackets.CloseBracket | src/citations.rs:306-329 | the scan finds the bracket that closes an opening one, or none within reach |
| CitationBrackets.BracketPairs | src/citations.rs:246-304 | the one-pass index holds a pair if and only if the one bracket closes the other and every item between is valid |
| CitationBrackets.ItemsValidByCount | src/citations.rs:268-296 | the count of invalid items tells about all but the first and last item |
| CitationBrackets.ValidItemAfterIs | src/citations.rs:255-259 | the last key and the last key before a comma tell whether the current item is valid |
| CitationBrackets.CitationCloseBracket | src/extension.rs:907-930 | short scan and index lose no citation |
| CitationBrackets.ParseGroup | src/citations.rs:213-232 | parsing item by item accepts a group if and only if its brackets are a citation pair |
| CitationBrackets.AcceptedIffValid | src/citations.rs:225-229 | the items parsed as slices are accepted if and only if they are valid in place |
| CitationBrackets.PlusIsNoItem | src/citations.rs:218-223 | the leading `+` makes no difference |
| CitationBrackets.MatchCitation | src/citations.rs:205-242 | what matches does not depend on whether the index is used |
| CitationBrackets.MatchIn | src/citations.rs:205-242 | on a string: the end of the citation group that opens here, if there is one |
| CitationBrackets.CitedText | src/citations.rs:205-242 | such a group stands between `[` and `]`, has an `@`, and no `(`, `[` or `{` follows it |
| CitationGroups.ClosesIff | src/citations.rs:306-329 | on a string: a bracket closes another if and only if it is the first to bring the number of unescaped open ones back down |
| CitationGroups.CitedIff | src/citations.rs:205-242 | on a string: it has a citation group there if and only if the brackets enclose it so, each piece between semicolons has a key that cites, and no `(`, `[` or `{` follows |
| DocumentIds.Search | src/document_ids.rs:43-49 | the loop ends and gives the first free suffix behind the count |
| DocumentIds.HeadingIds.Allocate | src/document_ids.rs:24-53 | an automatic id is new and not reserved, and is the first free suffix from 2 |
| DocumentIds.HeadingIds.AllocateAll | src/document_ids.rs:24-53 | with all explicit ids reserved, no automatic id equals any other id |
| DocumentIds.DocumentIdRegistry.UniqueId | src/document_ids.rs:88-104 | an id not used before, the same one as a search from 2 would give |
| DocumentIds.DocumentIdRegistry.Reserve | src/document_ids.rs:77-81 | the first reservation wins, others change nothing |
| DocumentIds.DocumentIdRegistry.EnsureCitationIds | src/document_ids.rs:112-128 | once only, every use and every key gets an id, all new and different from each other, and each its `cite-` or `ref-` name or the first free suffix of it |
| DocumentIds.CandidateIs | src/document_ids.rs:43-49 | a numbered name is the name, a dash and the number in decimal |
| DocumentIds.CandidateTells | src/document_ids.rs:118-121 | a key and a number are told by the entry `{key}-{n}`, so different uses have different entries |
| DocumentIds.UsesApart | src/document_ids.rs:112-128 | two uses have the same id if and only if they are the same use of the same key |
| MarkParser.ParseMarks | src/bbcode_migrate.rs:264-308 | from its start to its end the tree is the text with its tags in order: those that are paired begin and end, opening ones that are not are text, closing ones that are not are gone; around each character are exactly the kinds of the closed pairs |
| MarkParser.AroundAre | src/bbcode_migrate.rs:264-308 | the closed pairs around a place are those of the tags that are open there and will be closed |
| MarkPairs.ClosesIff | src/bbcode_migrate.rs:264-308 | the stack pairs two tags if and only if they are of one kind, all that is opened between them is closed between them, and the first is not closed before |
| MarkPairs.NeverClosedIff | src/bbcode_migrate.rs:264-308 | an opening tag stays text if and only if no closing tag matches it in this sense |
| Marks.FlattenSameKind | src/bbcode_migrate.rs:326-369 | the frames and slots give what the recursive flattening does, and the loop ends |
| Marks.FlattenKeepsStyle | src/bbcode_migrate.rs:326-369 | flattening changes no character and not the kinds around any |
| MarkEvents.FlattenThins | src/bbcode_migrate.rs:326-369 | from start to end, flattening leaves out where tags inside their own kind begin and end, and nothing else |
| Marks.FlattenRepeatsNone | src/bbcode_migrate.rs:326-369 | no kind lies inside itself |
| Marks.NoneRepeatsIsShallow | src/bbcode_migrate.rs:326-369 | the depth is at most four |
| Stash.PickPair | src/bbcode_migrate.rs:52-65 | the first pair of neighbouring private characters the text leaves free, if there is any |
| Stash.StashMatches | src/bbcode_migrate.rs:79-96 | the matches of one pattern are put aside in order, each behind its number |
| Stash.AfterStandsForSame | src/bbcode_migrate.rs:79-96 | with placeholders resolved the text stands for what it stood for before, and each entry holds only earlier placeholders |
| Stash.Restore | src/bbcode_migrate.rs:98-120 | the fixpoint loop ends and gives what the text stands for |
| Stash.ShowTells | src/bbcode_migrate.rs:98-120 | placeholders are read off a text in one way only |
| Stash.StashThenRestore | src/bbcode_migrate.rs:122-145 | for any patterns whose matches cut no placeholder, restoring gives the source back |
| CivilDate.NextCivil | src/bbcode_migrate.rs:823-833 | every day has a valid date, and the next day the next date |
| CivilDate.CivilIsNthDay | src/bbcode_migrate.rs:823-833 | the date of a day is the one counted from 1970-01-01 |
| CivilDate.UnixSecondsDate | src/bbcode_migrate.rs:819-834 | a date comes out if and only if there are 9 to 11 digits, and it is that of the day the seconds fall in |
| CivilDate.WrittenReads | src/bbcode_migrate.rs:833 | a date is written as year, month and day with dashes between, month and day with two digits, the year with four or, if it needs them, more |
| Carrier.RewriteTerminator | src/carrier_markers.rs:27-58 | the loop writes what the rewriting function says |
| Carrier.RewriteUndoesRewrite | src/carrier_markers.rs:13-23 | unescaping undoes escaping on every text; escaping undoes unescaping where there is no `-->` |
| Carrier.EscapeTerminatesIff | src/carrier_markers.rs:13-19 | `-->` is left if and only if an odd run of three dashes or more is directly before `>` |
| Carrier.PrintedLineReads | src/carrier_markers.rs:66-127 | a printed marker reads back as its payload and depth if and only if the depth is at least 1 and no such run is in the payload |
| Carrier.ReadsIff | src/carrier_markers.rs:93-127 | a line is read as a marker if and only if it is the stem, no numeral or one of 2 and more, and the suffix, with a blank and a text without the terminator before it or not |
| Carrier.ReadLinePrints | src/carrier_markers.rs:99-127 | a marker that was read reads the same once printed again, and is printed unchanged if and only if its numeral and empty payload are spelled the printer's way |
| Carrier.ThreeDashesAreLost | src/carrier_markers.rs:118-124 | `--->` printed as a payload is not read back |
| CarrierSets.CarrierSetClosers | src/carrier_markers.rs:309-330 | a set passes if and only if it is nested fences around lines, each fence wider than the one around it, and the closers are those of its fences |
| CarrierSets.PassesIffBalanced | src/carrier_markers.rs:306-330 | the scan with a stack of widths accepts exactly the balanced sets |
| CarrierSets.ClosersAre | src/carrier_markers.rs:309-330 | a payload is marked as a closer if and only if it closes the innermost fence open there |
| CarrierSets.LineAlonePasses | src/carrier_markers.rs:306-330 | an attribute line alone passes, against the comment |
| CarrierSets.LinesStandAgainstOpenersIff | src/carrier_markers.rs:306-330 | in a set that passes, every line is followed, past other lines, by an opener if and only if what directly follows each is there and does not close the innermost open fence |

## Left out

- Parsing and printing of JSON, the node types and `from_json`: documents are JSON trees; objects are maps visited in key
  order, a number is its spelling, and a replayed or merged document stays a tree.
- Overflow of `usize` and `isize` arithmetic, except for the depth of a carrier marker.
- Merge resolvers: every conflict stays one.
- Updating the tree in place during replay: `ApplyAt` gives a new tree, so what a failed operation leaves behind is not
  modelled; the source drops that tree as well.
- The FNV hash of a reversible patch: its fingerprint is any function of the clean tree. The one of the source is over the
  printed tree, so it tells zeros of different sign apart.
- Pointers as identities of values: an address is a root number and the steps down from it. Printed tokens such as `b3` are
  values of a datatype with the order of the source.
- The merge checks for collisions and gives additions their tokens in one loop; the model does so in two, which is the
  same because a collision discards the tokens.
- The transfer of node ids in `retain_node_identity` beyond shifting spans, annotation ranges, `nodes_by_path` and
  `identity_from_ast`.
- Sorting the changes of a source: `SpanShift` takes them in order. Its texts are any bytes; of UTF-8 it knows which go on
  with a character, and `Utf8` says what that means where the bytes are encoded characters.
- AstMerge.MergeAst: the conflicts are told as a set; in which order they are listed, and that none comes twice, is not
  stated.
- The regular expressions: backtick runs are maximal runs, the tags of `parse_marks` are given with the text before
  them, a stash pattern is any function from texts to matches, and a line of the div scan comes as the facts its
  expressions tell (depth, indent, item, fence and so on).
- Reading item positions of the div scan, and the code fences that hide lines from it: they are facts of the line.
- What a citation holds besides its key: prefix, locator, suffix and author suppression. Positions in texts of
  citations count characters.
- The closure that tells reserved heading ids is a set.
- Walking a document for headings and citations, and the thread-local registry around `DocumentIdRegistry`.
- The rewriting between stashing and restoring, and `stash_literals`, which keeps the tags around what it puts aside.
- Markers among other Markdown lines: only single lines and the fences of one set are modelled.
