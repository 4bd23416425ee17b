# Storage protocols over an ordered byte-key store

A Dafny model of the parts of an Effect library for FoundationDB that turn an ordered, transactional
byte-key store into mailboxes, directories, journals, queues, caches and rate limiters. Each of these is
a fast, index-driven form of something simple. The proofs say that the fast form is the simple one.

`dafny verify dfyconfig.toml` checks the whole project.

## What is modelled

The store is a map from keys to values. A transaction reads a snapshot under its own writes, collects
read conflicts and a log of mutations, and commits only if nothing it read was written since its
snapshot. The log is then replayed at a fresh commit version, which completes versionstamps. Three
protocols depend on the difference between snapshot and commit, and their proofs range over whole runs
of committing transactions: the allocator, the pending tail of the message order, and the journal. All
others treat a transaction as one atomic step.

- `Wrappers`: optional values and the least element of a finite set, for all the others.
- `Bytes`, `TupleValues`, `TupleCodec`, `TupleOrder`, `TupleParser`, `Subspaces`: the tuple codec as a
  printer and a parser over a buffer, the order of packed bytes against the order of values, ranges,
  and the completion of versionstamps inside packed keys.
- `MessageKeys`, `MessageOrder`, `MessageMerge`: enqueue order with stamps unknown until commit, and the
  paged merge of several ready indexes, then of the attempt's own pending entries, while its visitor removes
  what it was shown. An index is named by its key; packing is injective, so keys stand for subspaces.
- `Mailbox`, `MailboxPolling`, `MailboxVisit`, `MailboxDelivery`: messages, request state, two mirrored families of ready and
  timer indexes, and polling by promotion, ordered visit and claim. Stamps are numbers here, those from a
  boundary on belonging to the transaction itself: `MessageOrder` proves that the order seen before a commit
  is the order after it. The poll runs through the merge of `MessageMerge`, with the claims as its visitor.
  `MailboxDelivery` says what saving, replying, clearing and giving up claims mean for the polls after them.
- `Allocator`: numbers from half-empty windows, with counters read and bumped without read conflicts and
  history cleared without write conflicts.
- `DirectoryPrefixes`, `DirectoryTree`, `Directory`: live prefixes as an antichain decided by two row
  reads, the directory graph as a tree, and the operations on it.
- `Journal`, `JournalRuns`: entries in commit order, a cursor for each remote, acknowledgements, and
  writers that commit between a reader's snapshot and its commit.
- `PersistedQueue`: a four-state entry machine with leases, recovery and replayable transactions.
- `BackingPersistence`: chunked values under fresh identities, staging over many transactions guarded by
  an epoch and garbage markers, with any number of writers part-way through.
- `RateLimiter`: fixed window and token bucket, over real time.

Objects that the source updates in place are classes here, each with few fields holding values. What
their methods do to the state is stated as a function or predicate of those values, so that the lemmas
about runs and steps can speak about it.

Times are whole milliseconds except in the rate limiter. Strings are their UTF-8 bytes in the codec and
opaque elsewhere, floats are bit patterns, hashes and identifiers are opaque and distinct. Random draws,
fresh identities and clock readings are parameters.

## Assumptions a caller has to meet

- The messages of one request belong to one entity (`Mailbox.OneEntity`). Clearing an address drops the
  state of its requests without looking at messages of the same request elsewhere.
- Indexes passed for a pending message are the message's own two. `SetMessageOrderIndexed` says exactly which
  others would do.
- A message has one row in each family of ready indexes and none there while it is pending.
- Identities, epochs and ids of local writes are fresh, and a committed body is applied at most once,
  except where a replay lemma says otherwise.
- A journal callback does not ask again for the remote it is serving. The code does not prevent it, and
  `CallbackAsksAgain` shows exactly when entries are then delivered twice.
- Counter and clock values stay in the range that a number holds exactly.

## Findings

- A claim looks at one batch of 100 due rows (src/persisted-queue/repository.ts:258, 443-503). If all of them
  are used up it reports progress without taking anything, though takeable entries may follow: `JamClaimed`
  runs such a claim. `MissesExactly` gives the condition: at least 100 used-up entries in the way of the entry
  to be taken. A caller who keeps one limit of at least one attempt, and settles a lease with the attempts of
  the entry it claimed, never meets it: `LimitOverRuns` shows that no pending entry is ever used up then, and
  `NeverMissesInRuns` that no claim misses.
- The test of `allocatePrefix` for a higher window (src/directory/allocator.ts:148-150) can never succeed: the
  window found is the highest, as `FindWindow` says, and `TryCandidate` leaves it so.

## Model

| member | source | states |
|---|---|---|
| Bytes.CompareBytes | src/tuple/bytes.ts:15-30 | the byte loop returns the sign of the unsigned lexicographic order, shorter first |
| Bytes.ConcatBytes | src/tuple/bytes.ts:1-13 | the buffer filled part by part is the concatenation of the parts |
| Bytes.StartsWith | src/directory/internal.ts:78-88 | true exactly for extensions of the prefix |
| Bytes.Strinc | src/directory/internal.ts:105-116 | empty exactly for keys of 0xff bytes alone; otherwise the half-open range from the key to it holds exactly the key's extensions |
| TupleCodec.Packer.AppendEscaped | src/tuple/codec.ts:35-43 | every zero byte is doubled with 0xff and the value closed by a zero |
| TupleCodec.Packer.AppendInteger | src/tuple/codec.ts:63-96 | the magnitude loop and the code bytes give the specified integer encoding, or an error beyond 255 magnitude bytes |
| TupleCodec.Packer.AppendOrderedFloat | src/tuple/codec.ts:98-111 | flips bytes in place into the order-preserving form |
| TupleCodec.Packer.AppendValue | src/tuple/codec.ts:125-171 | appends the element's encoding and the offset of each incomplete stamp in it, or fails exactly for unpackable values |
| TupleCodec.PackTracked | src/tuple/codec.ts:178-193 | the packing of the tuple with all its incomplete-stamp offsets, or the error |
| TupleCodec.TypeCodes | src/tuple/codec.ts:12-25 | the first byte of an encoding is the type code of its kind of value, and the size of a number is in its code |
| TupleCodec.NestedExample | tests/unit/tuple/codec_test.ts:103-124 | the packing of a nested tuple with a null, an empty tuple and a zero byte in it |
| TupleCodec.IntegerExamples | tests/unit/tuple/codec_test.ts:56-86 | integers of one, two and three bytes of either sign |
| TupleOrder.ElementOrder | src/tuple/codec.ts:125-171 | whatever legally follows two elements, their order decides the byte order: the byte after an element is never 0xff |
| TupleOrder.PackOrder | src/tuple/codec.ts:125-171 | byte order of packings equals type rank, then value, nested tuples recursively; packing is injective |
| TupleOrder.ComparePacked | src/tuple/codec.ts:233-241 | compares two tuples by packing them, with the error of an unpackable side |
| TupleOrder.RangeIsExtensions | src/tuple/Subspace.ts:137-148 | a packing lies in the range of t exactly when its tuple properly extends t |
| TupleOrder.EscapeFollows | src/tuple/codec.ts:35-43 | where one element's encoding starts another's, the next byte is the escape byte |
| TupleOrder.BytePrefixIsNotExtension | src/tuple/codec.ts:35-43 | a packing that is a byte prefix of a tuple which does not extend it, and is outside its range |
| TupleParser.Parser.ReadEscaped | src/tuple/codec.ts:275-289 | the escape scanner reads what the specification reads and stops where it stops, or fails |
| TupleParser.Parser.ReadInteger | src/tuple/codec.ts:291-309 | signed magnitude of the bytes announced by the code |
| TupleParser.Parser.ReadOrderedFloat | src/tuple/codec.ts:311-321 | undoes the in-place flip |
| TupleParser.Parser.ReadValue | src/tuple/codec.ts:341-385 | one element by its code, with every error |
| TupleParser.Parser.ReadTuple | src/tuple/codec.ts:387-405 | elements up to the end or the closing zero; terminates on every input |
| TupleParser.UnpackBytes | src/tuple/codec.ts:407-444 | a tuple or an error for every byte string |
| TupleParser.UnpackPack | src/tuple/codec.ts:243-410 | unpacking a packing gives the tuple back, at any nesting depth |
| TupleParser.ParsedItemsPackable | src/tuple/codec.ts:387-405 | whatever was parsed can be packed |
| TupleParser.RepackReadsSame | src/tuple/codec.ts:243-410 | packing what was read and reading again gives the same tuple |
| TupleParser.NonCanonicalIntegerAccepted | src/tuple/codec.ts:291-309 | an integer with leading zero bytes is read though it is not what packing writes |
| Subspaces.Subspace.FromBytes | src/tuple/Subspace.ts:36-38 | a raw prefix is the namespace of the empty tuple below it |
| Subspaces.Subspace.FromTuple | src/tuple/Subspace.ts:40-52 | the namespace of a tuple knows the offsets of its stamps |
| Subspaces.Subspace.Pack | src/tuple/Subspace.ts:64-69 | prefix and packing, or the error |
| Subspaces.Subspace.PackWithVersionstamp | src/tuple/Subspace.ts:71-91 | the key of the whole tuple, prefix included: with the offset trailer where it has one incomplete stamp, as it is where it has none, an error where it has several |
| Subspaces.LittleEndianBytes | src/tuple/codec.ts:211-213 | the offset is written in four bytes, the lowest first |
| Subspaces.Subspace.Contains | src/tuple/Subspace.ts:116-127 | true exactly for extensions of the prefix |
| Subspaces.Subspace.Unpack | src/tuple/Subspace.ts:93-114 | an error outside the namespace, and the inverse of packing inside it |
| Subspaces.Subspace.Range | src/tuple/Subspace.ts:137-148 | keys of this namespace lie in the range exactly when their tuples properly extend the given one |
| Subspaces.Subspace.Child | src/tuple/Subspace.ts:151-167 | a child of a child is the namespace of the concatenated tuple, offsets included |
| Subspaces.CompletedAllPatches | src/tuple/codec.ts:153-158 | overwriting ten bytes at the recorded offset is completing that stamp inside the tuple |
| Subspaces.CommittedKey | src/tuple/codec.ts:195-214 | overwriting at the appended offset and dropping the trailer gives the packing of the completed tuple |
| Subspaces.StampedKeysOrder | src/cluster/message-order.ts:50-67 | stamped keys of one index sort by their stamps |
| MessageOrder.Attempt.InsertMessageOrder | src/cluster/message-order.ts:69-88 | a pending entry with the next ordinal, after which the next is one higher; its rows and its order record, no committed row and no other order touched; an error once user versions run out |
| MessageOrder.InsertInTurn | src/cluster/message-order.ts:69-88 | entries inserted one after the other get the ordinals 0, 1, 2, ... of their attempt; the 65537th insertion and all after it fail |
| MessageOrder.Attempt.MessageOrder | src/cluster/message-order.ts:90-106 | the pending ordinal, else the cached or visible committed stamp, always below the boundary |
| MessageOrder.Attempt.SetMessageOrderIndexed | src/cluster/message-order.ts:108-149 | pending: only the flag changes, no committed row or order is touched, and the log leaves exactly the entries still indexed if and only if the indexes given are those the entry needs; committed: exactly the id's own rows are edited; unknown: an error |
| MessageOrder.Attempt.RebuildTail | src/cluster/message-order.ts:122-140 | clears one index's uncommitted tail under a read conflict and reissues exactly the survivors |
| MessageOrder.Attempt.RemoveMessageOrder | src/cluster/message-order.ts:151-163 | exactly the id's own index rows, pending entry, cached stamp and order record are gone; all rows and orders of other ids stay; an error for an unknown id |
| MessageOrder.ReplayedRows | src/cluster/message-order.ts:50-161 | replaying a log at its commit stamp gives the point-edited rows, foreign ones included, and the pending rows stamped |
| MessageOrder.CommitKeepsIndexes | src/cluster/message-order.ts:60-161 | after commit each index has its edited committed rows and exactly the entries marked indexed; no row committed meanwhile is erased; orders are recorded |
| MessageOrder.CommitKeepsOrder | src/cluster/message-order.ts:60-161 | the order an attempt sees before commit is the order its rows have after it |
| MessageMerge.Load | src/cluster/message-order.ts:184-202 | the page after the cursor of an index from which shown rows may have been removed is the next page of the index as it was |
| MessageMerge.Next | src/cluster/message-order.ts:184-214 | a cursor moves one row on, reading a page only when it has to |
| MessageMerge.Select | src/cluster/message-order.ts:216-226 | the cursor with the least head, if any |
| MessageMerge.MergeStep | src/cluster/message-order.ts:216-239 | taking the least head keeps the merge strictly sorted and exact |
| MessageMerge.Visit | src/cluster/message-order.ts:165-245 | the committed rows of all selected indexes, duplicates or not, in strictly increasing order, none passed over; then by ordinal the pending entries still indexed in them when the committed rows were through; nothing shown twice; in windows of 64 until the visitor refuses; terminates while the visitor removes what it was shown |
| MessageMerge.StillDue | src/cluster/message-order.ts:233-239 | the pending entries that are still indexed in one of the selected indexes |
| MessageMerge.ByOrdinal | src/cluster/message-order.ts:240 | the same entries in strictly rising ordinals |
| MessageMerge.VisitMessageOrder | src/cluster/message-order.ts:165-245 | the same inside an attempt: over its committed rows as edited and its own pending entries, and the stamps of the rows shown are remembered |
| Mailbox.PollingAnswersEligible | src/cluster/message-readiness.ts:58-73 | the polling state answers, at every time, whether a scan would want the message |
| Mailbox.Mailbox.ClearMessageTimer | src/cluster/message-readiness.ts:81-90 | both timer indexes lose the message, nothing else |
| Mailbox.Mailbox.SetMessageOrderIndexed | src/cluster/message-readiness.ts:99-106 | both ready indexes gain or lose the message at its own stamp |
| Mailbox.Mailbox.SetMessagePolling | src/cluster/message-readiness.ts:92-116 | both index families agree with the message's new polling |
| Mailbox.Mailbox.WriteMessage | src/cluster/message-storage.ts:185-195 | the record is stored with the polling its request's state asks for, and the indexes agree |
| Mailbox.Mailbox.RemoveMessage | src/cluster/message-storage.ts:202-223 | the message is gone from every record and index, all others are as they were |
| Mailbox.Mailbox.UpdateRequest | src/cluster/message-storage.ts:300-314 | every message of the request is rewritten for the new state or removed, no other is touched |
| Mailbox.Mailbox.SaveEnvelope | src/cluster/message-storage.ts:482-571 | a duplicate changes nothing; a new message is indexed by its request's state; an acknowledgement takes its chunk off the count and rewrites all messages of the request |
| Mailbox.Mailbox.SaveReply | src/cluster/message-storage.ts:573-622 | saved once by id and slot; an exit completes the request, a first unacknowledged chunk blocks it; a saved reply is the last one of its request from now on |
| Mailbox.Mailbox.ClearReplies | src/cluster/message-storage.ts:627-668 | takes effect when no reply is expected or the one last saved; then the exit and the last reply are taken back and all messages of the request remain, but for its interrupts in an unconditional clear, unprocessed, unclaimed and due as before; otherwise nothing changes |
| Mailbox.Mailbox.ResetRequests | src/cluster/message-storage.ts:759-770 | claims of the given unprocessed messages are given up |
| Mailbox.Mailbox.ResetAddresses | src/cluster/message-storage.ts:771-772 | claims at the addresses are given up |
| Mailbox.Mailbox.ResetShards | src/cluster/message-storage.ts:773-774 | claims at the shards are given up |
| Mailbox.Mailbox.ClearAddress | src/cluster/message-storage.ts:775-806 | exactly the entity's messages, and the reply state of its requests, are gone |
| Mailbox.AcknowledgeCounts | src/cluster/message-storage.ts:522-545 | the unacknowledged count stays the number of unacknowledged chunks |
| Mailbox.ReplyCounts | src/cluster/message-storage.ts:580-611 | a reply keeps the count and the record of the exit |
| Mailbox.RewriteKeeps | src/cluster/message-storage.ts:300-314 | rewriting a request's messages keeps stored polling and completion in step with its state |
| Mailbox.ReplyKeeps | src/cluster/message-storage.ts:605-622 | a chunk for a request already blocked needs no rewriting: every readiness is already what it has to be |
| Mailbox.ClearKeeps | src/cluster/message-storage.ts:775-806 | with one entity to a request, the requests whose state goes are those whose messages all go |
| Mailbox.Mailbox.Promote | src/cluster/message-storage.ts:407-418 | due messages become ready, claim and delivery times stay |
| MailboxPolling.PromoteDue | src/cluster/message-storage.ts:390-422 | exactly the due messages of the selected indexes become ready |
| MailboxVisit.RowsOnce | src/cluster/message-storage.ts:695-712 | in the ready indexes of one selection an id and a stamp belong to one row |
| MailboxVisit.VisitorTakes | src/cluster/message-storage.ts:716-729 | over any windows what the visitor takes out of the indexes is what reading them hands out |
| MailboxVisit.VisitorWants | src/cluster/message-storage.ts:716-729 | the visitor wants more exactly while the limit is not reached |
| MailboxVisit.ClaimEmpties | src/cluster/message-storage.ts:381-385 | claiming what is handed out takes exactly its rows out of the ready indexes, as the merge assumes |
| MailboxVisit.VisitShowsFirst | src/cluster/message-storage.ts:716-729 | the merge shows ready messages in enqueue order, those of this very transaction last; a ready message it has not shown comes after all it has |
| MailboxVisit.ReadWindow | src/cluster/message-storage.ts:716-729 | one window read and claimed; the indexes then hold what the merge expects to read of them |
| MailboxPolling.Select | src/cluster/message-storage.ts:333-360 | the first messages of a batch that are handed out, up to the limit |
| MailboxPolling.ReadMessages | src/cluster/message-storage.ts:326-388 | reads a batch with envelopes as saved and, for requests alone, the reply last saved and not cleared since; claims exactly what it returns |
| MailboxPolling.KeysSelect | src/cluster/message-storage.ts:695-700 | shard indexes, or address indexes filtered by shard, select the addresses asked for |
| MailboxVisit.ReadyIffWanted | src/cluster/message-storage.ts:326-422 | after promotion the ready messages that are handed out are those a scan of the old state wants |
| MailboxVisit.UnprocessedMessages | src/cluster/message-storage.ts:683-730 | run through the paged merge, the answer is that of a scan over every message, sorted by enqueue stamp and cut at the limit; each message comes with the envelope that was saved, a request with the reply last saved for it unless it was cleared since, other messages with none; the newly claimed messages are exactly the answer; only due timers of the selected indexes change besides |
| MailboxVisit.AnswerUnique | src/cluster/message-storage.ts:683-730 | a scan has only one answer |
| MailboxDelivery.PollTwice | src/cluster/message-storage.ts:342-388 | what a poll has returned it returns again ten minutes later and not before; what it has not returned is not held back |
| MailboxDelivery.ResetThenPoll | src/cluster/message-storage.ts:759-774 | whatever was returned is returned again at once when its claim, or all claims at its shard, are given up |
| MailboxDelivery.ReplyThenPoll | src/cluster/message-storage.ts:573-622 | an unacknowledged chunk and an exit keep all messages of their request from being returned |
| MailboxDelivery.AcknowledgeThenPoll | src/cluster/message-storage.ts:482-622 | after a chunk is saved and acknowledged the request comes with that chunk as its last reply, the acknowledgement with none; earlier acknowledgements do not come any more |
| MailboxDelivery.ClearThenPoll | src/cluster/message-storage.ts:627-668 | after a clear that took effect the request comes again, without a last reply; an unconditional one leaves no interrupts |
| MailboxDelivery.SaveThenPoll | src/cluster/message-storage.ts:482-571 | a new request is returned as it was saved, exactly from its delivery time on |
| MailboxDelivery.SaveTwice | src/cluster/message-storage.ts:482-520 | a message saved again, under its own id or with its primary key, is a duplicate of the one saved first |
| MailboxDelivery.ReplyTwice | src/cluster/message-storage.ts:573-600 | a reply saved again is known, and another one in its place is refused |
| MailboxDelivery.ClearAddressThenPoll | src/cluster/message-storage.ts:775-806 | after an entity is cleared a poll returns exactly what it would have returned of the others |
| Allocator.Candidate | src/directory/allocator.ts:51-57 | a draw falls into the window |
| Allocator.CandidateReaches | src/directory/allocator.ts:54-57 | every number of a window can be drawn |
| Allocator.WindowStarts | src/directory/allocator.ts:51-52 | four windows of 64 numbers, then 64 of 1024, then windows of 8192, each beginning where the last one ends |
| Allocator.NeverBelow | src/directory/allocator.ts:91-118 | however blindly old counters are cleared, the highest window is not lost |
| Allocator.MarkKept | src/directory/allocator.ts:91-155 | a taken candidate stays marked or below the highest window, on whatever store its clears and marks are replayed |
| Allocator.Transaction.FindWindow | src/directory/allocator.ts:79-124 | the highest window, unless this allocation makes it half used, and then the one right after it, with a count of one; all behind it is then cleared and no mark in it is touched |
| Allocator.Transaction.TryCandidate | src/directory/allocator.ts:127-156 | a free candidate was read under a conflict, was given to nobody before the snapshot and is now marked; the window is stale exactly when it was not the highest, so never after it was found |
| Allocator.Transaction.AllocatePrefix | src/directory/allocator.ts:59-160 | the first drawn candidate of that window that was not marked, new for everybody; nothing exactly when every drawn candidate was marked |
| Allocator.LatestNeverFalls | src/directory/allocator.ts:71-118 | over whole runs the highest window start never decreases |
| Allocator.AllocatedOnce | src/directory/allocator.ts:51-160 | no number is given to two committed callers, nor twice to one, under any interleaving |
| DirectoryPrefixes.RowOrder | src/directory/engine.ts:601-618 | metadata rows sort by their node's prefix alone |
| DirectoryPrefixes.AllocatedUnrelated | src/directory/engine.ts:657-680 | packed numbers of the allocator are related prefixes only when they are the same number |
| DirectoryPrefixes.LastBelow | src/directory/engine.ts:601-624 | unpacking the one metadata row before a bound gives the last live prefix below it |
| DirectoryPrefixes.NodeContainingKey | src/directory/engine.ts:591-627 | one metadata row before the key finds the live prefix that contains it, or none does |
| DirectoryPrefixes.IsPrefixFree | src/directory/engine.ts:629-655 | reading one row before and one from the candidate on: true exactly when no live prefix extends it or is extended by it; refused exactly for an uncontained candidate without a successor |
| DirectoryPrefixes.ContentsApart | src/directory/engine.ts:827-852 | a key lies below at most one live prefix |
| DirectoryTree.UniquePath | src/directory/engine.ts:388-425 | a node has one path from the root |
| DirectoryTree.NoCycle | src/directory/engine.ts:827-852 | no node is below itself |
| DirectoryTree.AddLeaf | src/directory/engine.ts:705-741 | one new path, all others as before, still a tree |
| DirectoryTree.RemoveSubtree | src/directory/engine.ts:802-891 | exactly the paths into the subtree are gone, still a tree |
| DirectoryTree.MoveSubtree | src/directory/engine.ts:893-989 | old/q before is new/q after, all other paths are unchanged, still a tree |
| Directory.DirectoryLayer.CheckVersion | src/directory/engine.ts:470-514 | which versions can be read and written, and what the first write stores |
| Directory.DirectoryLayer.FindNode | src/directory/engine.ts:388-425 | the node of a path, or the partition on the way to it, or a path that is absent with no partition on its way |
| Directory.DirectoryLayer.CreateOrOpen | src/directory/engine.ts:516-589 | opens an existing path with a compatible layer, creates an absent one from the prefixes offered, each missing ancestor under the next of them, and hands a path into a partition on, with the partition and the rest, in exactly these cases; in each other case the error is the one of the failing check, in creation that of the first prefix that cannot be used; nothing is lost and nothing new but the path and ancestors of it, whatever fails on the way |
| Directory.DirectoryLayer.Create | src/directory/engine.ts:705-741 | succeeds exactly for a writable version and usable prefixes, one for each missing directory, in turn; otherwise says which prefix fails first and why |
| Directory.DirectoryLayer.ChoosePrefix | src/directory/engine.ts:657-680 | the caller's prefix, or an allocated one with nothing stored below it |
| Directory.DirectoryLayer.RemoveRecursive | src/directory/engine.ts:827-852 | terminates having removed exactly the nodes at and below a node and the keys below their prefixes |
| Directory.DirectoryLayer.RemoveFromParent | src/directory/engine.ts:802-825 | the directory's own entry goes |
| Directory.DirectoryLayer.Remove | src/directory/engine.ts:854-891 | succeeds exactly for existing paths outside partitions; the subtree's nodes, contents and the parent's entry go, all else stays; a path into a partition is handed on, an absent one and the root get their errors |
| Directory.DirectoryLayer.Move | src/directory/engine.ts:893-989 | succeeds exactly for an existing source, a free destination outside it and an existing parent; paths are relabelled and nothing else changes; two paths into one partition are handed on, and every other case has its own error |
| Directory.Places | src/directory/engine.ts:388-432 | a path is a directory of this layer, leads into a partition, or is absent, and only one of them |
| Directory.CreateThenOpen | src/directory/engine.ts:516-589 | what was created is what is opened; asking for another layer fails |
| Directory.RemoveThenOpen | src/directory/engine.ts:854-891 | what was removed does not exist any more |
| Directory.MoveThenOpen | src/directory/engine.ts:893-989 | what was moved is opened at its new path and does not exist at the old one |
| Directory.OthersKeepContents | src/directory/engine.ts:827-852 | a directory that remains keeps all its contents |
| Directory.ContentsAreNotMetadata | src/directory/engine.ts:845-850 | clearing contents touches no metadata |
| Journal.Unsent | src/eventlog/journal-order.ts:67-100 | the paged scan reads the committed rows after the cursor, whatever the page size; the new cursor is the last of them |
| Journal.NotReadAgain | src/eventlog/journal-order.ts:67-100 | once the cursor has moved to the last row read, no scan reads any of those rows again |
| Journal.OutstandingIsUnacked | src/eventlog/journal-order.ts:83-100 | the scan from the stored cursor finds exactly the entries the remote has not acknowledged |
| Journal.Transaction.Insert | src/eventlog/journal.ts:32-47 | an entry with its position in commit order, unknown until commit |
| Journal.Transaction.Write | src/eventlog/journal.ts:51-67 | a fresh entry is entered, pending and unacknowledged |
| Journal.Transaction.WriteFromRemote | src/eventlog/journal.ts:68-116 | new entries are entered once; duplicates reported are those entered before or listed more than once; all are acknowledged for their remote |
| Journal.Transaction.Begin | src/eventlog/journal.ts:117-132 | the callback is shown exactly the unacknowledged entries, this transaction's own included, each once and in entry order; the cursor kept for later is the last committed row after the stored one |
| Journal.Transaction.Finish | src/eventlog/journal.ts:133-151 | what was shown is acknowledged and the cursor moves to the last committed row read |
| Journal.Transaction.DestroyAll | src/eventlog/journal.ts:178-181 | everything is gone and nothing is pending |
| JournalRuns.SoundAlways | src/eventlog/journal-order.ts:47-100 | over all runs, rows are in commit order, one for each entry, and everything at or below a cursor is acknowledged |
| JournalRuns.NoneSkipped | src/eventlog/journal.ts:117-151 | every entry at or below a remote's cursor was shown to a committed callback of the remote or came from it |
| JournalRuns.NoneTwice | src/eventlog/journal.ts:117-151 | between destroys no entry reaches a remote's committed callbacks in two transactions |
| JournalRuns.NoneTwiceInside | src/eventlog/journal.ts:117-151 | nor twice in one, unless a callback asked again for its own remote |
| JournalRuns.CallbackAsksAgain | src/eventlog/journal.ts:117-151 | a callback that takes in entries from its own remote and asks again: nothing is delivered twice if and only if it took in all that it was shown |
| PersistedQueue.AddDelay | src/persisted-queue/repository.ts:262-269 | delays are not negative and stay exact |
| PersistedQueue.IndexBefore | src/persisted-queue/repository.ts:240-260 | the first rows up to a time, in order, at most 100 |
| PersistedQueue.PersistedQueue.Offer | src/persisted-queue/repository.ts:308-356 | a new id is pending now under the next sequence, with its element and no attempts, and wakes waiters; a known one changes nothing |
| PersistedQueue.OfferTwice | src/persisted-queue/repository.ts:308-356 | replaying an offer changes nothing |
| PersistedQueue.PersistedQueue.RecoverExpired | src/persisted-queue/repository.ts:386-441 | exactly the leases of one batch that ran out are pending again or failed |
| PersistedQueue.NotStale | src/persisted-queue/repository.ts:390-400 | an expired lock row always stands for a lease that has run out |
| PersistedQueue.PersistedQueue.Claim | src/persisted-queue/repository.ts:358-504 | a claim that holds an entry gets it again; otherwise expired leases are recovered, used-up entries given up, and the first entry with attempts left taken; progress and waiting exactly as documented |
| PersistedQueue.TakenIsHeld | src/persisted-queue/repository.ts:468-489 | what is taken was pending, due and below the limit; it is now held by the claim, with one attempt more and the element that was offered |
| PersistedQueue.RecoveredLease | src/persisted-queue/repository.ts:385-441 | a lease that has not run out is left alone; one that has is failed or pending now, by its attempts |
| PersistedQueue.WaitsRightly | src/persisted-queue/repository.ts:490-500 | a claim waits only when no pending entry is due and no lease has run out |
| PersistedQueue.TakesLeast | src/persisted-queue/repository.ts:443-491 | of all due entries with attempts left, recovered ones included, the least by time and sequence is taken |
| PersistedQueue.MissesExactly | src/persisted-queue/repository.ts:443-503 | a claim misses the entry it ought to take if and only if at least 100 used-up entries are in its way |
| PersistedQueue.JamClaimed | src/persisted-queue/repository.ts:443-503 | such a queue: the claim reports progress and takes nothing, though an entry could be taken |
| PersistedQueue.NeverMisses | src/persisted-queue/repository.ts:443-503 | where no pending entry is used up, a claim that takes nothing had nothing to take |
| PersistedQueue.FinalizeLeavesNone | src/persisted-queue/repository.ts:541-624 | settling a lease with the attempts of its own entry leaves no pending entry used up |
| PersistedQueue.ClaimLeavesNone | src/persisted-queue/repository.ts:386-496 | nor does claiming, recovery of expired leases included |
| PersistedQueue.LimitOverRuns | src/persisted-queue/repository.ts:308-659 | over all runs with one fixed limit: entries, indexes, claims and ids in step, no entry over the limit, no pending entry at it |
| PersistedQueue.NeverMissesInRuns | src/persisted-queue/repository.ts:443-503 | so a claim that takes nothing, at any point of such a run, had nothing to take |
| PersistedQueue.ClaimReplayed | src/persisted-queue/repository.ts:370-384 | replaying a claim that took an entry takes it again and changes nothing |
| PersistedQueue.ClaimBounded | src/persisted-queue/repository.ts:408-485 | with one fixed limit attempts never exceed it |
| PersistedQueue.ElementKept | src/persisted-queue/repository.ts:308-660 | no transaction changes the id or the element of an entry |
| PersistedQueue.PendingWakes | src/persisted-queue/repository.ts:350-437 | whatever makes an entry pending changes the signal that waiters watch |
| PersistedQueue.PersistedQueue.RefreshClaim | src/persisted-queue/repository.ts:506-539 | a held lease moves to the new time, nobody else can renew it |
| PersistedQueue.RefreshedHeld | src/persisted-queue/repository.ts:506-539 | the lock row of a held lease moves to now, and nothing else of its entry changes |
| PersistedQueue.RefreshTwice | src/persisted-queue/repository.ts:506-539 | replaying a refresh changes nothing |
| PersistedQueue.PersistedQueue.FinalizeClaim | src/persisted-queue/repository.ts:541-624 | a held lease is settled by its exit: success completes the entry, a dead letter fails it, an interrupt makes it pending now with its attempt taken back, and a failure makes it pending after the delay while attempts are left; lock row and claim go |
| PersistedQueue.SettledHeld | src/persisted-queue/repository.ts:541-624 | the same on the records and indexes of a value, with id, element and all other entries as they were |
| PersistedQueue.FinalizeTwice | src/persisted-queue/repository.ts:541-624 | replaying a finalize changes nothing |
| PersistedQueue.StaleHolder | src/persisted-queue/repository.ts:566-574 | whoever lost the lease can neither renew nor settle it |
| PersistedQueue.PersistedQueue.CleanupState | src/persisted-queue/repository.ts:626-659 | batch after batch, exactly the entries of the state up to the cutoff go, with their ids |
| PersistedQueue.ReplaceKeeps | src/persisted-queue/repository.ts:204-215 | rewriting an entry with its index row and claim keeps one index for each entry and the two bijections |
| BackingPersistence.ExpirationFor | src/persistence/backing-persistence.ts:188-195 | none for an infinite time to live, otherwise now and the time to live, which counts as zero when negative, up to the greatest exact number |
| BackingPersistence.LatestEntries | src/persistence/backing-persistence.ts:197-205 | of the writes to one key only the last counts |
| BackingPersistence.Persistence.StageEntries | src/persistence/backing-persistence.ts:475-511 | all mutations stored in batches within the byte budget; fails exactly when one mutation alone is over it |
| BackingPersistence.Persistence.Begin | src/persistence/backing-persistence.ts:368-448 | a write under fresh identities begins with nothing stored |
| BackingPersistence.Persistence.StageBatch | src/persistence/backing-persistence.ts:450-473 | a staging transaction stores exactly the next so many mutations under the epoch its first one saw, or none and fails; live entries are untouched |
| BackingPersistence.Persistence.PublishStaged | src/persistence/backing-persistence.ts:513-607 | all entries go live together exactly when the epoch is unchanged and every marker is there; nothing changes otherwise |
| BackingPersistence.Persistence.PublishDirect | src/persistence/backing-persistence.ts:563-607 | a small write goes live in one transaction, chunks and all |
| BackingPersistence.StageKeeps | src/persistence/backing-persistence.ts:450-511 | one staged mutation disturbs no live entry and no other writer |
| BackingPersistence.StoredAfter | src/persistence/backing-persistence.ts:450-511 | so many mutations staged are so many more, and all are when the last entry is |
| BackingPersistence.Persistence.WriteOnce | src/persistence/backing-persistence.ts:609-645 | a whole write with nobody in between: directly, or staged and published; too large exactly as the byte estimates say; otherwise all entries are live with their contents and expirations, what they replaced is garbage from then on, and every other key is as it was |
| BackingPersistence.WriteThenGet | src/persistence/backing-persistence.ts:188-366 | after a write the last value written to a key is read back until its time to live is over, and nothing from then on |
| BackingPersistence.CleanedMidway | src/persistence/backing-persistence.ts:513-747 | no cleanup before its markers are due keeps a write that is staged whole from going live |
| BackingPersistence.StagedForADay | src/persistence/backing-persistence.ts:370-747 | so what a write has staged can go live for a day, whatever is cleaned up meanwhile |
| BackingPersistence.PublishStarts | src/persistence/backing-persistence.ts:525-562 | an unchanged epoch and all markers mean that every staged chunk is still there |
| BackingPersistence.PublishKeeps | src/persistence/backing-persistence.ts:570-604 | publishing keeps every live manifest complete and out of the garbage |
| BackingPersistence.EraseKeeps | src/persistence/backing-persistence.ts:277-288 | chunks that go with their manifest or their marker are nobody else's |
| BackingPersistence.ClearKeeps | src/persistence/backing-persistence.ts:904-941 | clearing under a new epoch keeps every manifest, chunk and writer consistent |
| BackingPersistence.ClearedMidway | src/persistence/backing-persistence.ts:904-941 | a write that was staging when the store was cleared stores nothing more and never goes live |
| BackingPersistence.Persistence.Get | src/persistence/backing-persistence.ts:324-366 | a live entry's value is whole and the one that was written; an expired one is removed on the way |
| BackingPersistence.Persistence.Remove | src/persistence/backing-persistence.ts:879-903 | the key's manifest, expiration row and chunks go, and no others |
| BackingPersistence.Persistence.Clear | src/persistence/backing-persistence.ts:904-941 | everything goes under a new epoch |
| BackingPersistence.Persistence.CleanupBatch | src/persistence/backing-persistence.ts:659-747 | only expired entries and due garbage go, and all of them when neither batch is full |
| RateLimiter.Store.FixedWindow | src/persistence/rate-limiter.ts:153-188 | one step of the window, granted exactly without a limit or within it; refused requests store nothing |
| RateLimiter.Store.TokenBucket | src/persistence/rate-limiter.ts:189-241 | one step of the bucket, granted exactly when it holds enough or may be overdrawn; stored where it changed |
| RateLimiter.FixedBound | src/persistence/rate-limiter.ts:153-188 | tokens granted since a time never exceed the limit and one for each refill time since |
| RateLimiter.FixedBurst | src/persistence/rate-limiter.ts:153-188 | the limit can be reached: under a new window exactly as many single tokens are granted at one time as the limit says |
| RateLimiter.WindowEnds | src/persistence/rate-limiter.ts:153-188 | the delay says exactly when the window starts over |
| RateLimiter.RefusedUntil | src/persistence/rate-limiter.ts:171-175 | a refused request of at most the limit is refused until its delay is over and granted from then on |
| RateLimiter.RefillKeepsLevel | src/persistence/rate-limiter.ts:204-219 | refilling in whole tokens neither adds to nor takes from what the bucket holds |
| RateLimiter.BucketBound | src/persistence/rate-limiter.ts:189-241 | the same bound for the bucket |
| RateLimiter.RefusedSucceedsLater | src/persistence/rate-limiter.ts:221-239 | a refused request of at most the limit succeeds at lastRefill + (-remaining) * refill |
| RateLimiter.GrantedFrom | src/persistence/rate-limiter.ts:189-241 | after any request, granted, refused or overdrawing, the exact time from which the next one is granted |
| RateLimiter.BucketBurst | src/persistence/rate-limiter.ts:189-241 | a new bucket grants exactly as many tokens at one time as its limit says |

## Left out

- Foreign calls, handles, threads, retries, tracing and scopes: not part of this model; a transaction's commit rule is all that is kept of them.
- JSON and schema encoding, SHA-256, UUID and Snowflake generation: opaque values, fresh or injective where needed.
- Well-formedness of UTF-16 strings and canonical NaN bits: strings enter as UTF-8 bytes and floats as bit patterns.
- Subspaces.CommittedKey: an offset beyond 32 bits is an error of the code and is excluded by the requires.
- Mailbox.Mailbox.UpdateRequest: rows of an index are visited as a set, so page boundaries of the request, shard and address indexes are not modelled there; the pages of the ready indexes are, in MessageMerge.
- MailboxVisit.UnprocessedMessages: the visitor is a function of what was shown, and its claims are carried out window by window after the merge; ReadWindow proves that the indexes then hold what the merge has read of them. Bodies of replies are not kept, only which reply was sent last.
- MessageMerge.VisitMessageOrder: what a visitor does to the remembered stamps itself is not modelled.
- Unclaimed reads by id, replies by request and lookups by primary key: reads that would only add easy members.
- MessageOrder.Attempt.InsertMessageOrder: an id that is already pending is excluded, as no caller inserts one.
- Allocator.Transaction.AllocatePrefix: draws are an input sequence; termination by luck is not modelled, nor are malformed counter values and 64-bit wrap-around.
- Directory.DirectoryLayer.CreateOrOpen: a path into a partition is handed on with its rest; the partition's own layer is another instance of the same model, whose keys all lie below the partition's prefix.
- Directory.DirectoryLayer.Move: between two paths of one partition the move is handed on with the rests of both; that the destination is empty is no case of its own, as the root always exists.
- Directory.DirectoryLayer.ChoosePrefix: looks for stored contents only; an allocated prefix that meets metadata is refused by the prefix check instead.
- Listing and existence of directories: reads of what FindNode finds.
- Concurrent creation of directories with manual prefixes: each operation is one atomic step.
- Journal.Transaction.WriteFromRemote: compaction, replay callbacks and the remote's next sequence number are not modelled.
- Journal.Transaction.Insert: the local index and the conflict index are not modelled.
- Journal.Transaction.Begin: the order of entries is a rank given by the caller.
- The journal's local change feed, watches and locks.
- PersistedQueue.PersistedQueue.CleanupState: no other transaction runs between its batches; each batch is a step that keeps all invariants on its own.
- BackingPersistence.Persistence.PublishStaged: an ambiguous commit that is replayed is excluded, so the branch for manifests that are already the entry's own is only taken by an empty write.
- BackingPersistence.Persistence.StageEntries: sizes are given; how many bytes a mutation counts for is not modelled.
- BackingPersistence.Persistence.WriteOnce: starting over after an epoch change is a new write under new identities.
- DirectoryPrefixes.IsPrefixFree: keys are relative to the metadata subspace, whose raw prefix they all share.
- Reading many keys at once: the single-key read repeated in one transaction.
- Adaptive rate limiting, retry delays, watches and polling intervals.
- RateLimiter.Store.TokenBucket: rounding of fractional times is not modelled, times being reals; `BucketBound` is about buckets that may not be overdrawn.
- Runner storage, the key-value store and the event-log servers: invariants of single maps.
