# Akypuera: verified models

Dafny models of four parts of Akypuera, with proofs. `dafny verify dfyconfig.toml` checks all of them.

**The diff that decides whether the tests pass.** `LcsSpec` defines the longest common subsequence of
two key sequences by recursion and proves it is the largest matching. `Thresholds`, `ThresholdRows`,
`MatchVectors` and `LcsEngine` model the Hunt-McIlroy engine with its arrays: pruning, the position
table, the hinted binary search, the links; `LcsChoice` says as a function of the two lists which of the
longest common subsequences it picks, and `Turns` in which order a traversal passes the rest. `LcsApi`,
`Walks`, `Traversals`, `EditScripts`, `DiffHunks`, `SideBySide`, `CompactDiffs`, `HunkObject` and
`BuildDiff` model what is derived from the match vector, down to the text that counts as "no difference". Elements are of any type; a key
generator maps them to keys. A cursor `aEnd` or `bEnd` is one more than the source's last index.

**The binomial-tree scatter.** `ScatterTree` holds the bit arithmetic of the tree, `ScatterRank` the
routine one rank runs, with its buffers, and `ScatterSystem` all ranks with messages in flight, each of
which takes in, posts and ends up with what its routine's contract says. The
specification is MPI-3.1, section 5.6: rank r gets block r. The communicator is MPI_COMM_WORLD, what is
sent and received per rank has the same positive number of bytes (or nothing is sent at all), and
machine integers do not overflow. The number of requests uses the exact rounded-up logarithm.

**The link protocol.** `Calls`, `Requests`, `Tracer` and `RankTraces` model the wrappers of one rank
and what they record, `RankReceives` which receives are recorded when, and `RankRecords` what all link
records of a rank say, from its program alone. `Merges` defines the interleavings the converter may
read. `KeyNames`, `KeyQueues` and `KeyStores` model the key store as heap objects; `Links` is the same
store as a value, with the theory of its runs. `Events`, `Translation` and `Converter` model the event
loop. `LinkTrails`, `LinkOutput` and `StateOutput` say what the output shows; `Pairing`, `PointToPoint`,
`Collectives`, `Causality` and `Capacity` are about merged traces; `Paje` reads the output back and
`LifeCycles` proves when this works. `Programs` and `ProgramMessages` go from whole programs to their
traces and on to the output. A reader of a trace is given by its list of records;
times are real numbers that come with them. Ranks are those of MPI_COMM_WORLD.

**The hostfile hierarchy.** `Tokenizer` models the splitting of lines, `Hostfile` the duplicate checks
and the per-line construction of types and containers, `HostfileLevels` says from the fields of the
lines exactly what is created, and `HostfileNesting` proves when the types nest like the containers. `Wrappers`, `Numbers` and `Lists` are helpers.

The key table has a capacity. A channel is admitted if it is one of the first that many to be used;
all its links have keys then, and none otherwise. The theorems on links hold for any capacity and say
where this matters; `Links.FitsExactly` and `Capacity.SixteenRanksFit` say when every channel is
admitted. There are at most 2^31 ranks, and the ranks in point-to-point records are 32-bit numbers
(`PointToPoint.AllWords`). Where numbers are narrowed to a C int the model does the same
(`Events.AsInt`).

Where code and documentation differ, the model follows the code:

- The documentation of Diff.pm shows `LCS($prep, $seq)` with a prepared first argument. The code then
  indexes that hash as an array, so it dies as soon as there is a match (`LcsApi.LongestCommon`);
  `LCS_length` works with either order.
- `Min` and `Max` are documented to return undef for an empty range; they return numbers, with
  Max = Min - 1.
- A finished callback is documented to replace the discards of the other sequence; it is called once,
  and the discards follow all the same.
- `build_diff` returns undef only for two empty lists; for other equal lists it returns "".

Places where the code does not do what one would expect; each has its exact condition:

- A mark reported by MPI_Wait belongs to the first send on its request slot since the last MPI_Wait
  there, because MPI_Waitall and MPI_Waitany leave sends in the tree (`RankTraces.OwnMark`,
  `RankTraces.StaleMark`).
- A host, cluster or site name that occurs at two levels of the hostfile stays where it was met first,
  with the type it got there, and a name "0" is taken for the place where there is no container. The
  types then need not nest like the containers (`HostfileNesting.NameAtTwoLevels`,
  `HostfileNesting.NameIsZero`); `HostfileNesting.NestingExactly` says for which files they do.
- A conversion that fails, or ends before a rank does, still destroys the root at its end, over
  processes that live in it: such an output makes no sense (`LifeCycles.OutputReadable`).

## Model

| member | source | states |
|---|---|---|
| LcsSpec.LcsIsMaximum | tests/scripts/Diff.pm:108-126 | the recursive `Lcs` used as reference is the size of a largest matching: no set of strictly increasing equal-key pairs is larger, and one is that large |
| LcsSpec.WindowIsUpperBound | tests/scripts/Diff.pm:126-244 | in any window of the two key sequences no matching exceeds the recursive length |
| LcsSpec.WindowIsAttained | tests/scripts/Diff.pm:126-244 | in any window some matching has exactly the recursive length |
| LcsSpec.PruneFirst | tests/scripts/Diff.pm:175-182 | matching a common first element and solving the rest loses nothing |
| LcsSpec.RowAtLastMatch | tests/scripts/Diff.pm:200-228 | a row improves the length before column j exactly through its last match before j |
| LcsSpec.WindowSymmetric | tests/scripts/Diff.pm:134-139 | swapping the two sequences, as is done for a prepared first argument, keeps the length |
| Thresholds.NumberArray.ReplaceNextLargerWith | tests/scripts/Diff.pm:66-106 | under a hint that is good, the in-place hinted binary search either finds the value and leaves the array alone, or puts it at its insertion point (appending only behind the last element) and returns that place; the array stays strictly increasing |
| ThresholdRows.InsertionPointIsWindow | tests/scripts/Diff.pm:200-228 | the insertion point of a match in the threshold array is the length of the best chain that can precede it |
| ThresholdRows.EnterMatch | tests/scripts/Diff.pm:207-218 | entering the matches of a row in descending column order keeps: thresh[k] is the least column that ends a common subsequence of length k+1 |
| ThresholdRows.SkipColumns | tests/scripts/Diff.pm:204-228 | columns without a match change no threshold |
| ThresholdRows.RowEnds | tests/scripts/Diff.pm:200-228 | after its last match a row leaves the threshold invariant of the next row |
| MatchVectors.WithPositionsOfInInterval | tests/scripts/Diff.pm:34-56 | the table lists, for every key, exactly its positions in the interval in descending order, and has no other keys |
| MatchVectors.PairsMatch | tests/scripts/Diff.pm:110-112 | the defined slots of a match vector are a matching: increasing on both sides, with equal keys |
| MatchVectors.StoreAddsPair | tests/scripts/Diff.pm:180-236 | filling an undefined slot, growing the array if needed, adds exactly one pair |
| LcsEngine.PruneStart | tests/scripts/Diff.pm:175-182 | the common beginning is matched, and the rest of the problem plus the pruned count has the length of the whole |
| LcsEngine.PruneEnd | tests/scripts/Diff.pm:184-191 | the same for the common end of what is left |
| LcsEngine.LinkEntered | tests/scripts/Diff.pm:221-225 | the new link extends the chain of the previous length, which ended in an earlier row and column |
| LcsEngine.PlaceColumn | tests/scripts/Diff.pm:207-218 | the shortcut test and the search give the same place; the place handed on is a good hint for the next column |
| LcsEngine.EnterRow | tests/scripts/Diff.pm:206-227 | after all matches of a row, thresh and links satisfy the invariant of the next row: links[k] is a chain of k+1 matches that ends at thresh[k] |
| LcsEngine.EnterRows | tests/scripts/Diff.pm:200-228 | the invariant holds after all rows |
| LcsEngine.RowsDone | tests/scripts/Diff.pm:230-241 | pruned count plus number of thresholds is the length of the longest common subsequence |
| LcsEngine.FollowLinks | tests/scripts/Diff.pm:233-236 | following the links backwards adds one pair for every link to the match vector |
| LcsEngine.PickedIs | tests/scripts/Diff.pm:172-244 | once the ends and the chain that the rows built are stored, the vector holds exactly the matches `Picked`, a function of the two key sequences |
| LcsChoice.ColumnsListed | tests/scripts/Diff.pm:34-56 | a descending list of positions of a key that misses none is the one list of them |
| LcsChoice.HoldsExactly | tests/scripts/Diff.pm:180-236 | a vector that holds an ascending list of matches, and no more slots than that, is that list |
| LcsEngine.LongestCommonSubsequence | tests/scripts/Diff.pm:126-244 | for all sequences, key generators and prepared tables: counting returns exactly the longest length; otherwise the match vector is a matching of exactly that size, namely the one `Picked` gives for the two lists |
| LcsApi.Prepare | tests/scripts/Diff.pm:420-429 | the prepared table denotes the key sequence of the list |
| LcsApi.LcsLength | tests/scripts/Diff.pm:448-453 | the length is the same for a list and for its prepared table, on either side; it dies exactly for two prepared tables |
| LcsApi.LongestCommon | tests/scripts/Diff.pm:431-446 | the result lists the elements of the engine's largest matching in order; with a prepared first argument it dies exactly when there is something to read or both are prepared |
| LcsApi.LcsIdx | tests/scripts/Diff.pm:455-463 | the two index lists are the two sides of the engine's largest matching, for lists and prepared tables: with a prepared first argument the columns come exchanged, and it dies exactly for two prepared tables |
| Walks.WalkCounts | tests/scripts/Diff.pm:246-418 | a traversal visits each index of both inputs exactly once, in order |
| Walks.RunIsDifferent | tests/scripts/Diff.pm:246-418 | between two matches of an optimal traversal no element passed on one side has the key of one passed on the other |
| Traversals.TraverseSequences | tests/scripts/Diff.pm:246-318 | visits both inputs completely, with the matches the engine picks for the two lists and no others; before a match the elements of a go first, behind the last one both sides go in turn; each finished callback is called at most once, exactly when its sequence ends strictly first behind the last match, at the moment when that sequence has been walked, and with its last index |
| Traversals.WalkTail | tests/scripts/Diff.pm:282-315 | the loop behind the last match ends with both inputs visited |
| Traversals.TraverseBalanced | tests/scripts/Diff.pm:320-418 | terminates, visits both inputs completely with the very matches that traverse_sequences visits, and between matches pairs off changes first, or with no CHANGE callback discards from both sides in turn |
| Turns.OnlyTraversal | tests/scripts/Diff.pm:246-418 | the two lists, the matches and the order between matches determine the callbacks: there is only one such traversal |
| Turns.ChangesFirst | tests/scripts/Diff.pm:364-386 | where changes are paired off, an element passed by itself is followed by another of its side or by a match |
| EditScripts.NoShorterScript | tests/scripts/Diff.pm:490-511 | no insert/delete script from a to the keys of b has fewer than |a| + |b| - 2 LCS edits |
| EditScripts.CopiesMatch | tests/scripts/Diff.pm:490-511 | what an arbitrary script copies is a matching, and every other element costs an edit |
| DiffHunks.WalkTransforms | tests/scripts/Diff.pm:490-511 | applying the discards of a complete traversal to a gives the keys of b |
| DiffHunks.WalkUndone | tests/scripts/Diff.pm:490-511 | applying the inverse edits to b gives the keys of a |
| DiffHunks.RunsDiffer | tests/scripts/Diff.pm:502-506 | a hunk never deletes and inserts elements of equal keys |
| DiffHunks.CollectedIsDiff | tests/scripts/Diff.pm:490-511 | the collected hunks are non-empty, form a round trip in both directions, and together have the minimal number of edits |
| DiffHunks.Diff | tests/scripts/Diff.pm:490-511 | diff returns such hunks, with the edits of the one traversal in order; a match of the two lists lies between any two consecutive hunks, and none inside a hunk |
| DiffHunks.SameHunkExactly | tests/scripts/Diff.pm:502-506 | two edits are in the same hunk if and only if no match lies between them |
| DiffHunks.ExactPatch | tests/scripts/Diff.pm:490-511 | when keys tell elements apart, patching a gives b itself and back |
| SideBySide.ColumnsOfWalk | tests/scripts/Diff.pm:513-538 | at every point the left column without added rows is the visited part of a, the right one without removed rows that of b, and unchanged rows count the matches |
| SideBySide.RowsTrue | tests/scripts/Diff.pm:513-538 | 'u' rows pair equal keys and 'c' rows never do |
| SideBySide.Sdiff | tests/scripts/Diff.pm:513-538 | the whole table has these properties, with as many unchanged rows as the longest common subsequence is long |
| SideBySide.RowsAligned | tests/scripts/Diff.pm:513-538 | between two unchanged rows there are first 'c' rows and then only '-' rows or only '+' rows |
| CompactDiffs.CompactDiff | tests/scripts/Diff.pm:465-488 | the index pairs cut both inputs completely into alternating same and different hunks, none empty but possibly the first, same hunks elementwise equal, different ones without equal keys across; same hunks have LCS elements in all |
| CompactDiffs.FollowSame | tests/scripts/Diff.pm:474-478 | a same hunk runs exactly as long as matches follow one another |
| HunkObject.SpliceIsHunkList | tests/scripts/Diff.pm:595-604 | cutting off an empty first hunk leaves exactly the non-empty hunks, with parity telling same from different |
| HunkObject.New | tests/scripts/Diff.pm:585-608 | the new object shows exactly these hunks at positions 1 to End-1 and starts reset |
| HunkObject.Hunks.Reset | tests/scripts/Diff.pm:610-621 | the position is in range, counted from the end when negative, and 0 when there is no such hunk |
| HunkObject.Hunks.Next | tests/scripts/Diff.pm:641-651 | moves by any number of steps, stays in range, and resets beyond either end |
| HunkObject.Hunks.Prev | tests/scripts/Diff.pm:653-659 | moves back and reports the position counted from the end |
| HunkObject.NextPrev | tests/scripts/Diff.pm:641-659 | Next enumerates 1 to End-1 and then resets; Prev undoes Next and Next undoes Prev, at every position |
| HunkObject.NextIsSteps | tests/scripts/Diff.pm:641-651 | moving by any number of steps, forwards or backwards, is moving by so many single steps that stop for good once they leave the hunks |
| HunkObject.Hunks.Items | tests/scripts/Diff.pm:704-717 | the items of the current hunk; dies exactly on a reset object or a wrong sequence number |
| HunkObject.Hunks.Max | tests/scripts/Diff.pm:683-689 | Min and Max delimit exactly the items of the hunk; on an empty range Max is Min - 1 |
| HunkObject.Hunks.DiffBits | tests/scripts/Diff.pm:661-673 | 0 for an unchanged hunk; else one bit for each sequence that has items in the hunk |
| HunkObject.HunksDelimit | tests/scripts/Diff.pm:585-608 | all hunk bounds are ordered and inside both inputs |
| BuildDiff.EqualHasNoChange | tests/scripts/tesh:647-674 | equal lists have no changed hunk and at most one hunk |
| BuildDiff.NothingShown | tests/scripts/tesh:647-674 | nothing is shown exactly when the lists are equal; undef exactly when both are empty |
| BuildDiff.ShowSame | tests/scripts/tesh:656-668 | of an unchanged hunk the first two and the last two lines are shown where the hunk is not at the respective end, and dots for more than two lines |
| BuildDiff.Build | tests/scripts/tesh:647-674 | no call on the hunk object dies; the '- ' lines are, in order, exactly the elements of the expected list outside the unchanged hunks, the '+ ' lines those of the actual one, '- ' lines coming first in a change; unchanged lines are those next to a change; the text has zero length exactly when the two line lists are equal |
| BuildDiff.ResultTells | tests/scripts/tesh:647-674 | without mention of hunks: the expected lines are a merge of the '- ' lines and of lines kept, the actual ones of the '+ ' lines and of the same lines kept, which are a longest common subsequence |
| BuildDiff.LinesTell | tests/scripts/tesh:653-672 | the items of the '- ', '+ ' and unchanged lines shown for the first hunks, from the two lists |
| BuildDiff.TextReadBack | tests/scripts/tesh:657-671 | the text, split at its line breaks, gives back every line: its kind from the two-character prefix and its item from the rest |
| BuildDiff.OracleSound | tests/scripts/tesh:647-674 | test oracle: zero length (undef counts as empty) if and only if expected and actual lines are equal |
| ScatterTree.AndFindsLowBit | examples/scatter/src/scatter.c:59-72 | the receive loop stops at the lowest set bit of the relative rank |
| ScatterTree.TreeExact | examples/scatter/src/scatter.c:59-93 | the children found by the send loop and the parent found by the receive loop are inverse relations, and no child is found twice |
| ScatterTree.ChildrenHaveParent | examples/scatter/src/scatter.c:76-92 | every child found below the mask waits for this rank |
| ScatterTree.ParentHasChild | examples/scatter/src/scatter.c:59-93 | every rank but the root is among the children of the rank it waits for |
| ScatterTree.InnerSpanAtMostHalf | examples/scatter/src/scatter.c:44-47 | the subtree of an inner rank other than the root is at most half of all ranks |
| ScatterTree.CeilLog2Exact | examples/scatter/src/scatter.c:73 | the integer logarithm is the exact rounded-up one |
| ScatterTree.SendsFitRequests | examples/scatter/src/scatter.c:73-92 | no rank posts more sends than the request array holds |
| ScatterRank.DatatypeCopy | examples/scatter/src/scatter.c:9-20 | copies the smaller of the two sizes and nothing else |
| ScatterRank.StageRoot | examples/scatter/src/scatter.c:48-55 | the staged buffer is the send buffer rotated so that relative rank r finds its block at r |
| ScatterRank.RotatedBlock | examples/scatter/src/scatter.c:48-55 | block Rel(q) of the rotation is block q of the send buffer |
| ScatterRank.FindSource | examples/scatter/src/scatter.c:59-72 | the receive loop ends with the mask of the rank and the absolute rank of its parent |
| ScatterRank.InnerFits | examples/scatter/src/scatter.c:44-47 | what an inner rank receives fits its temporary buffer of half of all bytes |
| ScatterRank.ChildSpan | examples/scatter/src/scatter.c:77-92 | the blocks passed on to a child are exactly its subtree, the upper part of what the rank has |
| ScatterRank.SendStep | examples/scatter/src/scatter.c:77-92 | before each mask the data count is block size times min(2*mask, size - relrank); a send is exactly the receiver's subtree and keeps that |
| ScatterRank.SendLoop | examples/scatter/src/scatter.c:74-92 | the loop posts exactly one message to each child, in order, each carrying exactly the blocks of the child's subtree |
| ScatterRank.SendsToChildren | examples/scatter/src/scatter.c:76-92 | the k-th message goes to the k-th child |
| ScatterRank.ObtainData | examples/scatter/src/scatter.c:37-72 | root staging, leaf receive into the receive buffer, inner receive into the temporary buffer, with no other change |
| ScatterRank.CopyOut | examples/scatter/src/scatter.c:95-99 | the rank's own block ends at the beginning of its receive buffer |
| ScatterRank.BinomialTreeScatter | examples/scatter/src/scatter.c:22-103 | one rank: given its subtree's data from its parent it sends each child its subtree and leaves its own block in recvbuf, nothing else changed; with nothing to send it returns at once |
| ScatterSystem.InitInv | examples/scatter/src/scatter.c:22-103 | the initial state satisfies the invariant |
| ScatterSystem.NextKeepsInv | examples/scatter/src/scatter.c:59-100 | every receive, send and return step keeps: ranks hold the right data, exactly the posted messages were sent once, in flight are those not yet received |
| ScatterSystem.ArrivalIsOwn | examples/scatter/src/scatter.c:61-70 | the only message that can reach a waiting rank is its parent's, with exactly its data |
| ScatterSystem.RoomFits | examples/scatter/src/scatter.c:44-47 | no message is longer than the buffer it is received into |
| ScatterSystem.Progress | examples/scatter/src/scatter.c:59-93 | no reachable state with an unfinished rank is stuck, even if sends complete only when received |
| ScatterSystem.NextWorks | examples/scatter/src/scatter.c:59-100 | every step takes exactly one off a finite measure, so all runs end |
| ScatterSystem.SendIsNext | examples/scatter/src/scatter.c:76-92 | the message a step posts is the next one of the outbox that the routine's send loop computes |
| ScatterSystem.PostedInOrder | examples/scatter/src/scatter.c:76-92 | in every run, what a rank has posted so far is a prefix of its routine's outbox, in order |
| ScatterSystem.TakenOnce | examples/scatter/src/scatter.c:59-72 | in every run, what a rank has taken in is the one message its routine asks for, once it has left its receive |
| ScatterSystem.ScatterCorrect | examples/scatter/src/scatter.c:22-103 | end to end, for every size, root and buffer content: in every run that can go no further all ranks have returned, no message is left over, and each rank has done what BinomialTreeScatter's contract says: taken in its subtree's data from its parent and nothing else, posted the routine's outbox in order, and put block r of the root's buffer at the start of its own, the rest untouched; run length is bounded |
| ScatterSystem.MessageCount | examples/scatter/src/scatter.c:59-93 | when something is sent at all, a complete run sends exactly size - 1 messages, one to each rank but the root from its parent |
| KeyNames.ChannelNameInjective | src/aky_keys.c:138-145 | `type#src#dst` names distinct channels differently |
| KeyNames.KeyTextInjective | src/aky_keys.c:99-113 | a key string determines its ranks and its number |
| KeyNames.KeyTextFields | src/aky_keys.c:104-106 | a printed key, split at its underscores, is source, destination and number |
| KeyNames.DigitsValue | src/aky_keys.c:106 | printed digits denote the number |
| KeyQueues.Desc.Enqueue | src/aky_keys.c:49-69 | appends to the doubly linked list; head, tail, first, last and n stay consistent |
| KeyQueues.Desc.Dequeue | src/aky_keys.c:71-97 | unlinks the oldest element, or returns NULL for an empty queue and changes nothing |
| KeyStores.KeyTable.Apart | src/aky_keys.c:138-201 | queues of different names share no objects |
| KeyStores.KeyTable.PutText | src/aky_keys.c:138-165 | finds or enters the queue and appends; fails without effect exactly when a new name does not fit |
| KeyStores.KeyTable.TakeText | src/aky_keys.c:167-201 | takes the oldest text, or nothing for an unknown name or an empty queue |
| KeyStores.NameKnown | src/aky_keys.c:138-201 | the table has a queue for a channel exactly when the abstract store has, and with its keys |
| KeyStores.OneChannelChanged | src/aky_keys.c:138-201 | changing one queue leaves every other channel as it is |
| KeyStores.PutStands | src/aky_keys.c:138-165 | putting into the table is putting into the abstract store |
| KeyStores.GetStands | src/aky_keys.c:167-201 | getting from the table is getting from the abstract store |
| KeyStores.KeyStore.PutKey | src/aky_keys.c:99-165 | the hash of linked queues with its counter refines the map from channels to key sequences: put |
| KeyStores.KeyStore.GetKey | src/aky_keys.c:167-201 | the same for get |
| Links.Conservation | src/aky_keys.c:138-201 | for every run and channel: keys issued = keys taken, in the same order, followed by the keys queued |
| Links.KeysFresh | src/aky_keys.c:104-106 | no key is issued twice across all channels |
| Links.KeysMatch | src/aky_keys.c:138-201 | an EndLink carries the key of a StartLink if and only if both are of one channel and of the same ordinal there, and then it comes later; also with ignored misses and a full table |
| Links.TakenOnce | src/aky_keys.c:167-201 | a key is taken at most once |
| Links.OpenSucceeds | src/aky_keys.c:150-164 | for every run and capacity: a put gets a key if and only if its channel is one of the first that many to be used, no matter when it comes |
| Links.FitsExactly | src/aky_keys.c:104-164 | every put gets a key if and only if the table has room for all the channels |
| Links.MissesExactly | src/aky_keys.c:167-195 | in any run, after any misses: a get fails if and only if its channel is not admitted or no put of it is still unanswered; a failed get leaves the store as it was |
| Links.RunPairs | src/aky_keys.c:138-201 | in any run a get has the key of that put of its channel that has waited longest, if the channel is admitted and one is waiting, and of no other |
| Links.NoMissIffSound | src/aky_keys.c:167-195 | no get fails if and only if on every channel the k-th get comes after the k-th put, and all channels with gets are admitted |
| Links.SoundRunPairs | src/aky_keys.c:138-201 | in such a run get and put share a key if and only if channel and counts before them agree |
| Events.OthersExact | src/aky/aky_converter.c:51-61 | the loop over the communicator visits every rank but the event's own, once and in order |
| Events.OpsApart | src/aky/aky_converter.c:51-61 | the link operations of one event are on different channels |
| Translation.Cut | src/aky/aky_converter.c:31-34 | printed sizes and marks are the first five characters |
| Translation.FailureStops | src/aky/aky_converter.c:204 | nothing is translated after a failure |
| Converter.ReadSizeMark | src/aky/aky_converter.c:43-49 | size and mark are written only if both are present and neither is the int -1 |
| Converter.Translator.StartLinkTo | src/aky/aky_converter.c:55-60 | issues the channel's next key and writes the StartLink with it |
| Converter.Translator.EndLinkFrom | src/aky/aky_converter.c:70-83 | takes the channel's oldest key and writes the EndLink, with an empty key and, unless ignored, a failure when there is none |
| Converter.Translator.TreatOne | src/aky/aky_converter.c:113-130 | a send to or a receive from one rank performs the one operation of its event, which `PointToPoint.MatesOfMessage` and `Causality.CallSentBefore` tell from the fields |
| Converter.Translator.TreatAll | src/aky/aky_converter.c:86-111 | a send to or a receive from all ranks performs exactly the operations of its event |
| Converter.Translator.TranslatePlain | src/aky/aky_converter.c:282-593 | containers, pushes and pops of the other events |
| Converter.Translator.TranslateEvent | src/aky/aky_converter.c:204-595 | the loop body does to the converter's state what the event calls for |
| Converter.Translator.Convert | src/aky/aky_converter.c:203-598 | the whole output equals the specification for every event list, the root destroyed last if the last time is not negative |
| LinkTrails.TracksEvent | src/aky/aky_converter.c:203-281 | after every operation of an event: queues, link records and fail flag are those of the operations so far |
| LinkTrails.RunTracks | src/aky/aky_converter.c:203-281 | the same after every event, up to and including the first that fails |
| LinkOutput.FailsExactly | src/aky/aky_converter.c:204-281 | without ignore_errors the fail flag is set after n events if and only if among them some receive is not preceded by its send, or is on a channel the key table had no room for |
| LinkOutput.NothingAfterFailure | src/aky/aky_converter.c:204 | the output ends with the failing event |
| LinkOutput.IgnoringNeverFails | src/aky/aky_converter.c:80-81 | with ignore_errors every event is translated |
| LinkOutput.QueuesBalance | src/aky/aky_converter.c:203-281 | as long as nothing failed: StartLink keys minus matched EndLink keys are the queues, per channel |
| LinkOutput.OutputLinks | src/aky/aky_converter.c:203-281 | the link records of the output are exactly the events' link operations, in order, each with its key |
| LinkOutput.OutputPairs | src/aky/aky_converter.c:203-281 | in the output of any run translated to its end, with errors ignored or without any: a StartLink has an empty key if and only if its channel is not admitted, and an EndLink has the key string of a StartLink if and only if both are of one admitted channel and that one has waited longest |
| LinkOutput.SoundOutputPairs | src/aky/aky_converter.c:203-281 | when every receive comes after its send, the key strings agree if and only if channel and ordinal agree |
| LinkOutput.OutputShows | src/aky/aky_converter.c:203-281 | every link record of the output shows time, process and kind of link of its event, and a StartLink its size and mark |
| LinkOutput.SizeMarkReads | src/aky/aky_converter.c:31-49 | size and mark are shown in this order, and each reads back as the number if and only if it has at most five digits |
| StateOutput.PlainTells | src/aky/aky_converter.c:282-593 | the container and state records of an event are of its process and time; a state has its name, and the numbers shown with it read back as those of the event |
| StateOutput.OutputStates | src/aky/aky_converter.c:282-598 | besides the links, the output holds exactly the records of the events in order, and the end of the root |
| Merges.OrderKept | src/aky/aky_converter.c:204 | a merge keeps the order of each rank's records |
| Pairing.OrdinalKept | src/aky/aky_converter.c:203-281 | a merge keeps the ordinal of every send and receive on its channel |
| Pairing.CausalIffSound | src/aky/aky_converter.c:203-281 | a merge puts each receive after its send if and only if no receive of the merged stream lacks a key |
| Pairing.MergeFailsExactly | src/aky/aky_converter.c:203-281 | a merge of any number of ranks is translated without failure if and only if it puts each receive after its send and the key table has room for every channel received from |
| Pairing.CausalMergePairs | src/aky/aky_converter.c:203-281 | in every such merge two records show the same key if and only if they are mates, a relation of the traces alone: the pairing does not depend on the interleaving |
| PointToPoint.MatesOfMessage | src/aky/aky_converter.c:206-245 | from the fields of the records alone: a point-to-point send and receive are mates if and only if the send names the receiver, the receive names the sender, and as many sends from the one to the other precede the send as receives precede the receive |
| PointToPoint.MessageKeysPair | src/aky/aky_converter.c:206-245 | in the output of every causal merge a point-to-point send and receive show the same key if and only if they are the same message in that sense |
| Causality.CausalExactly | src/aky/aky_converter.c:203-281 | a merge is causal if and only if, on the fields of the records, each message comes behind its sending and each collective receive behind the calls of all ranks it receives from |
| Capacity.ChannelCount | src/aky_private.h:58-63 | n ranks have exactly 4 n^2 - 3 n channels: no collective call joins a rank to itself |
| Capacity.SixteenRanksFit | src/aky_private.h:58-63 | with up to 16 ranks that talk to one another only, every channel has room in the key table of 1000, however the traces are merged |
| Collectives.SendsAreUses | src/aky.c:277-311 | a rank's sends on a collective channel count the calls so far that use the channel |
| Collectives.ReceivesAreUses | src/aky.c:143-177 | so do its receives |
| Collectives.MatesOfOneCall | src/aky_private.h:60-63 | although gathers and scatters share queue names: a send and a receive are mates if and only if they are on one channel and of the same collective call |
| Collectives.SendOfCall | src/aky.c:116-311 | every collective receive has a send of the same call, and that is its mate |
| Collectives.CallOrderIsCausal | src/aky.c:116-311 | ordering each collective call by itself makes a merge causal |
| Collectives.CollectiveKeysPair | src/aky/aky_converter.c:38-130 | in the output of every causal merge a collective receive shows the key of a send if and only if both are on one channel and of the same call |
| LifeCycles.EventPlays | src/aky/aky_converter.c:282-593 | the records of an event that fits can be read and have exactly its effect |
| LifeCycles.SceneNext | src/aky/aky_converter.c:282-593 | each next record of any rank fits: its container exists if it must, with a state to pop if it pops, or does not exist yet |
| LifeCycles.RunPlays | src/aky/aky_converter.c:204-595 | for any merge, complete or not, failing or not, what is written before the converter stops never pops an empty stack and never uses a container before its creation or after its end |
| LifeCycles.OutputReadable | src/aky/aky_converter.c:204-598 | for any merge, the whole output, with the root destroyed last, makes sense to its end if and only if that last record is not written, because the last time is negative, or nothing failed and every rank that began its trace has ended it |
| LifeCycles.CompleteRunPlays | src/aky/aky_converter.c:282-598 | for a complete run: every container is created once in a living one and destroyed once, childless and with an empty stack; at the end none lives, and exactly root and processes have been |
| Requests.RequestTree.Insert | src/aky_aux.c:36-43 | an address that is present keeps its node |
| Requests.RequestTree.Check | src/aky_aux.c:53-65 | 0 if and only if absent; mark 0 is told as -1 |
| Requests.RetoldExactly | src/aky.c:1445-1451 | a mark survives the trip through the tree if and only if it fits a C int, 0 included |
| Tracer.Rank.PlainSend | src/aky.c:1125-1141 | MPI_Send records the mark before it is incremented |
| Tracer.Rank.Isend | src/aky.c:987-1006 | MPI_Isend also enters the request with its mark |
| Tracer.Rank.Irecv | src/aky.c:948-965 | MPI_Irecv enters the request |
| Tracer.Rank.Receive | src/aky.c:1069-1089 | MPI_Recv records its source |
| Tracer.Rank.Wait | src/aky.c:1440-1463 | MPI_Wait reports and forgets a send, records and forgets a pending receive |
| Tracer.Rank.Waitall | src/aky.c:1465-1487 | the loop records and forgets exactly the pending receives of the array, in order |
| Tracer.Rank.Waitany | src/aky.c:1489-1508 | records and forgets the one that completed |
| Tracer.Rank.Bcast | src/aky.c:117-141 | the root records one send to all, the others one receive |
| Tracer.Rank.Gather | src/aky.c:143-177 | the root records one receive from all, the others one send |
| Tracer.Rank.Reduce | src/aky.c:234-261 | the root records one receive from all, the others one send |
| Tracer.Rank.Scatter | src/aky.c:277-311 | the root records one send to all, the others one receive |
| Tracer.Rank.Finalize | src/aky.c:734-741 | the records that end a trace |
| RankTraces.TraceProgram | src/aky.c:734-768 | running the wrappers over any program leaves the trace that is reasoned about |
| RankTraces.SendsNumbered | src/aky.c:1125-1141 | the k-th traced point-to-point send of a rank carries mark k |
| RankRecords.SendsRecorded | src/aky.c:117-311 | the send records of a rank are, in order, exactly what its program sends: each names the destination or the size of the communicator, the bytes, and the mark or the size |
| RankRecords.ReceivesRecorded | src/aky.c:117-311 | the receive records of a rank are, in order, exactly what its program receives: each message with its source, each collective part with the root or the size |
| RankRecords.BeginsAgree | src/aky.c:980-1141 | the record that begins a call has the mark, or size of the communicator, and the bytes of its link record; a receive has the bytes of its buffer |
| RankRecords.SendPlaced | src/aky.c:1125-1141 | the record of a send in the whole trace: its fields, and how many sends to any rank precede it |
| RankRecords.ArrivalPlaced | src/aky.c:1069-1089 | the record of a received message in the whole trace: its source, and how many messages from any rank precede it |
| RankTraces.KeptMark | src/aky_aux.c:36-65 | for each slot the tree of sends holds the mark of the first MPI_Isend since MPI_Wait was last called there |
| RankTraces.WaitReports | src/aky.c:1445-1451 | for any number of sends, MPI_Wait reports that mark as the tree returns it, narrowed to a C int, and nothing if and only if there is no such send |
| RankTraces.OwnMark | src/aky.c:1440-1463 | it is the own mark of the latest send on the slot if and only if that mark fits a C int and every earlier send there was completed by MPI_Wait |
| RankTraces.StaleMark | src/aky.c:1465-1487 | after MPI_Waitall completed a send, the next one on the slot is reported with the old mark: a concrete program |
| RankReceives.OutstandingExactly | src/aky.c:948-965 | a receive is outstanding on a slot if and only if some MPI_Irecv there has not been followed by an MPI_Wait, MPI_Waitall or MPI_Waitany that covers it |
| RankReceives.PendingIsOutstanding | src/aky_aux.c:36-65 | the tree of receives holds exactly the slots on which a receive is outstanding |
| RankReceives.IrecvRecorded | src/aky.c:1457-1508 | for each MPI_Irecv not made on a slot in use: the call that completes it adds exactly one record for it, with the source of that completion, and no call in between adds one |
| RankReceives.RecordOwner | src/aky.c:1457-1508 | each such record is that of exactly one MPI_Irecv not made on a slot in use |
| RankReceives.ReceivesBalance | src/aky.c:1457-1460 | receives recorded + receives pending + receives lost to a reused slot = receives made |
| RankReceives.EachReceiveRecorded | src/aky.c:948-965 | with nothing outstanding, there are as many records as receives if and only if no MPI_Irecv was made on a slot where another was outstanding |
| Programs.TraceIsLifeCycle | src/aky.c:734-768 | the trace of every program begins with MPI_Init, ends with MPI_Finalize, and closes exactly the states it opens |
| Programs.InnerCalls | src/aky.c:116-311 | each rank adds exactly one link record to each collective call, naming the call's root |
| Programs.ProgramsMakeWorld | src/aky.c:116-311 | programs that make the same collective calls in the same order have traces in which collective receives pair call by call, and which are life cycles |
| Programs.ProgramsWithin | src/aky.c:116-311 | programs that send to ranks of the communicator only have traces whose channels fit the count above |
| Programs.ProgramsConvert | src/aky/aky_converter.c:203-598 | end to end: when up to 16 ranks run programs with the same collective calls and their whole traces are merged, the converter fails if and only if the merge puts a receive before its send, and the whole output makes sense, with nothing left alive, if and only if it does not fail |
| ProgramMessages.MessagesMate | src/aky.c:948-1141 | for programs: the k-th send to a rank is the mate of the k-th message received there from it, and of no other |
| ProgramMessages.MessagesDrawn | src/aky/aky_converter.c:203-281 | from program to output: each send has a StartLink and each received message an EndLink with their process, time, size and mark, and the two have the same key if and only if they are the same message |
| ProgramMessages.MergesConvert | src/aky/aky_converter.c:203-598 | for up to 16 ranks the converter fails if and only if the merge puts some message before its sending or some collective receive before a call it receives from, told from the records, and the output makes sense if and only if it does not |
| Tokenizer.TokensClean | src/otf2/otf22paje_hostfile.c:144-155 | no field is empty or contains the separator |
| Tokenizer.TokensOfJoin | src/otf2/otf22paje_hostfile.c:144-155 | joined fields are found again by the tokenizer |
| Tokenizer.TokensSplit | src/otf2/otf22paje_hostfile.c:144-155 | the fields of a line with a separator are those before it and those behind it |
| Hostfile.TypeDeclared | src/otf2/otf22paje_hostfile.c:59-69 | the scan finds a type if and only if it was declared |
| Hostfile.Hierarchy.DeclareType | src/otf2/otf22paje_hostfile.c:71-104 | a type is declared and written once |
| Hostfile.Hierarchy.CreateContainer | src/otf2/otf22paje_hostfile.c:106-124 | a container is created and written once |
| Hostfile.Hierarchy.PlaceHierarchy | src/otf2/otf22paje_hostfile.c:171-197 | the loop from the last field down places each level under the one above |
| HostfileLevels.ContainersExactly | src/otf2/otf22paje_hostfile.c:171-242 | from the fields of the lines: exactly these containers are created, each where its name first occurs: field j of type Lj in field j + 1, the last field at the top, the cluster of type L0 in field 1, the host of type H in the cluster |
| HostfileLevels.TypesExactly | src/otf2/otf22paje_hostfile.c:171-239 | exactly the types Lj under L(j+1), the last one at the top, and H under L0 are declared |
| HostfileLevels.HostsListed | src/otf2/otf22paje_hostfile.c:243 | the list of hosts holds the first field of every line, in order |
| Hostfile.Hierarchy.ReadLine | src/otf2/otf22paje_hostfile.c:131-251 | one line; ends the program exactly for another number of fields or a first field without exactly two parts |
| Hostfile.ReadFile | src/otf2/otf22paje_hostfile.c:126-255 | succeeds exactly if all lines are proper, and then builds the hierarchy of all lines |
| Hostfile.BuiltForest | src/otf2/otf22paje_hostfile.c:126-251 | for any number of lines every type and container is defined at most once, under "0" or under one defined strictly earlier, and a container's type is declared before it |
| Hostfile.BuiltNames | src/otf2/otf22paje_hostfile.c:106-243 | the containers are exactly the names on the lines |
| Hostfile.HostsExist | src/otf2/otf22paje_hostfile.c:240-243 | every listed host is a container |
| HostfileNesting.NestingExactly | src/otf2/otf22paje_hostfile.c:106-242 | for every proper file: each container's type is declared directly under the type of the container it is in, for all containers, if and only if every name is aligned: where it first occurs, the name above it is not "0" and first occurs at the level above |
| HostfileNesting.TypesNest | src/otf2/otf22paje_hostfile.c:171-242 | if no name occurs at two levels and none is "0", all types nest |
| HostfileNesting.NameAtTwoLevels | src/otf2/otf22paje_hostfile.c:111-114 | a name at two levels of one line breaks that nesting: the line grid-host.site.grid, for any such names |
| HostfileNesting.NameIsZero | src/otf2/otf22paje_hostfile.c:106-124 | a container called "0" breaks it although no name is at two levels: the line cluster-host.0 |

## Left out

- Diff.pm: `Get` with its string dispatch, `Copy`, `Range`, `wantarray` contexts, extra arguments of key generators, and the checks that arguments are references.
- CompactDiffs.CompactDiff: takes two lists; with a prepared table the source dereferences a hash as an array and dies.
- tesh: everything but `build_diff`: processes, timeouts, reading test files.
- scatter.c: overflow of machine integers and the floating-point logarithm, for which the exact one stands; the benchmark around the routine.
- ScatterRank.BinomialTreeScatter: does not model the receive itself, whose data is a parameter; `ScatterSystem.ScatterCorrect` proves that in every run this is the data that arrives.
- Key store: 64-bit wrap-around of the counter, truncation of names and keys at 200 characters, freeing of memory. The size of the hash table is a parameter; hsearch_r may round it up.
- aky_converter: reading and synchronising trace files, comment and header output, options that only concern these, messages on stderr.
- Converter.Translator.Convert: demands of an event the numbers its kind carries, where the source asserts or reads them unchecked; the wrappers always attach them.
- Tracer: sub-communicators (AKY_translate_rank is the identity in MPI_COMM_WORLD), and calls that record no links: Sendrecv, Test*, Waitsome, persistent requests. All wrappers that only mark begin and end are one (`Tracer.Rank.Wrap`), and so are the six sends without a size at their begin (`Tracer.Rank.OtherSend`).
- Tracer: calls made before MPI_Init or after MPI_Finalize; wrap-around of the 64-bit send mark.
- Tracer.Rank.Waitany: does not model MPI_UNDEFINED as the index, with which the source reads outside its array.
- RankTraces.OwnMark: is stated for fewer than 2^63 sends, well below the wrap-around of the 64-bit send mark.
- Merges: the per-pair order of point-to-point messages is the design's assumption; matching by tag is not modelled.
- Hostfile.ReadFile: demands at least two fields on the first line; with fewer the source reads outside its array of fields.
- Hostfile: `nf_hostnames_search` and `nf_hostnames_clear`, which nothing shown uses; reading the file itself; the state and link types of other files share the duplicate check but not the nesting theorem.
- The OTF, OTF2 and TAU converters, argument parsers, name tables and print scripts: callbacks and plumbing around libraries that are not part of this model.
