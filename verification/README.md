# Verification of the Verlet session store, file tools and ingress queue

A Dafny model of four parts of the repository and proofs about them. `dafny verify dfyconfig.toml`
checks everything.

**The session store** (`HistoryModel`, `Journal`, `Branches`, `Transactions`, `Fencing`,
`Admission`, `Contexts`, `Views`, `Turns`, `Replay`, `Reopen`, `StaleCalls`,
`SessionStore`). Five tables — journal, entries, leaf cache, fork
edges, lease epochs — are one value, `Store`; each mutation is one atomic transaction on it, and a
run is any sequence of calls by any number of handles with any lease epochs. Fresh ids are
parameters, so a clash is one of the modelled outcomes. The class `SqliteSessionStore` holds the
tables as fields and performs each call step by step, rolling back on error; every method is proved
to do exactly what the transaction on values does, and the theorems about runs are about those.

**The edit engine** (`Lines`, `Normalize`, `Matching`, `Composition`, `BatchEdit`, `LineGroups`, `GroupedEdit`,
`EditResult`, `Splice`, `EditRun`). Exact and normalized matching, planning a batch, replacing it plainly or line
by line, and writing it back over the original characters with their line endings.

**Reading and walking** (`TruncateHead`, `Paging`, `Utf16`, `Walk`). Truncation by whole lines,
pages that point at the next one, clipping by UTF-16 units, and the directory walk with its stack
of ignore matchers against a rule about single paths.

**Ingress deduplication** (`Dedupe`). Claim, enqueue, commit or release, with a failure or a
cancellation at each point, as interleaved steps of any number of submits.

## Where the code does less than one might expect

Each of these has a concrete witness or an exact condition among the members below.

- Forking by reference over a thread that already has a branch selection clears its leaf without a
  journal row, so opening the store again brings the old leaf back
  (`Replay.ForkOverSelectionResurrects`).
- A raw append of a selection record that does not parse is admitted, and the store cannot be opened
  again (`Reopen.GarbledSelectionLocksStore`). `Reopen.SettledKeptExactly` says exactly which calls
  keep the next opening without effect, and `Reopen.RunStaysSettledExactly` says it of whole runs.
- The lease fence has two ways past it. A fork over a thread and an emptying clone do not pass the
  fence at all (`Fencing.StaleHandleCanOnlyClear`, `StaleCalls.StaleForkClearsLeaf`). And the fence
  is by stream while replay is by thread, so a raw record about a fenced thread on another stream
  moves its leaf at the next opening (`StaleCalls.StaleRecordMovesLeaf`).
  `StaleCalls.StaleAtNextOpening` says exactly what is brought about.
- An old text that normalizes to nothing is never counted, so its first occurrence is replaced
  however many there are, and occurrences that overlap count as one: "aa" is accepted in "aaa"
  (`Matching.OverlapIsAccepted`). `Matching.UniquenessIsExact` says exactly which old texts are
  unique whenever accepted.
- Composition of characters can hide occurrences from the count (`Composition.JoinedIsNotCounted`).
- A normalized match in a file that ends in a blank line without a newline is refused with the
  "different line count" message (`EditRun.LineCountRefusal`, `EditRun.BlankEndedIsRefused`).
- A file with a lone CR can be spliced wrongly or refused; `Splice.SpliceConditionIsExact` says
  exactly which files are safe for every change. A lone CR is harmless only as the last character of
  a CRLF file. The refusal reads like the one above (`EditRun.LoneCrIsRefused`);
  `EditRun.WholeRunRefusal` says exactly when a run meets either.
- A read with a limit of zero or less never comes to the end of a file: its pages point at
  themselves or backwards (`Paging.NoPageCompletes`, `Paging.LimitBelowOneGoesBack`,
  `Paging.NegativeLimitRepeats`), and a line longer than a page ends the paging.
  `Paging.FinishesExactly` says exactly when the end is reached.
- If a submit is cancelled after its message is in the queue, its claim is released and a second
  message for the same key can follow, for any two submits of one key
  (`Dedupe.PromiseWithoutAtomicity`); such a submit fails although its message is out
  (`Dedupe.VerdictsAreHonest`).

## Model

| member | source | states |
|---|---|---|
| `Journal.MaxIsLength` | crates/verlet-history-sqlite/src/lib.rs:1439-1460 | On a stream numbered 1..n, the allocated next sequence (`MAX + 1`) is one more than the number of its rows. |
| `Journal.InsertKeepsLinear` | crates/verlet-history-sqlite/src/lib.rs:1360-1437 | Inserting an event, with its duplicate-id refusal, keeps every stream numbered 1..n and every event id globally unique. |
| `Journal.InsertsAppend` | crates/verlet-history-sqlite/src/lib.rs:701-729 | A batch only adds rows at the end, and they are the given records, in order, stamped with the stream. |
| `Journal.ReadIsSuffix` | crates/verlet-history-sqlite/src/lib.rs:1462-1505 | Reading from sequence `s` returns exactly the suffix of the stream that drops its first `s - 1` events, for every `s`. |
| `Fencing.CallFence` | crates/verlet-history-sqlite/src/lib.rs:1300-1358 | Every call either leaves journal and fence alone, or writes to one stream only, whose fence admitted its epoch and now stands at it. |
| `Admission.FenceExactly` | crates/verlet-history-sqlite/src/lib.rs:1300-1358 | The fence admits an epoch if and only if it is at the recorded minimum or above it and a raised minimum fits the column; it stands at the epoch afterwards, touches no other stream and says why it refuses. |
| `Admission.CommitsExactly` | crates/verlet-history-sqlite/src/lib.rs:404-729 | In a well-founded store every call commits if and only if what it asks for is there: its parent, leaf or branch exists under its coordinates, its ids are unused and distinct, its records are admissible, the fence admits its epoch, a fork names its threads and keeps the fork graph acyclic, a fenced append meets its sequence, and the journal of a store to be opened is sound. |
| `Admission.BatchRefusal` | crates/verlet-history-sqlite/src/lib.rs:1360-1437 | A batch is refused for its first bad record, by the id of that record. |
| `Admission.FencedRefusal` | crates/verlet-history-sqlite/src/lib.rs:701-729 | A fenced append names the stale epoch first, then the sequence it missed, with the one expected and the one found. |
| `Admission.ParentRefusal` | crates/verlet-history-sqlite/src/lib.rs:611-650 | A parent named by the caller is unknown in the thread, known under another scope, or taken. |
| `Admission.AppendJournals` | crates/verlet-history-sqlite/src/lib.rs:1236-1298 | An append adds one row to the thread's own stream, with the next sequence, naming its entry. |
| `Admission.SelectJournals` | crates/verlet-history-sqlite/src/lib.rs:404-472 | A selection adds one row to the thread's own stream naming the new leaf and the leaf the thread had. |
| `Admission.CloneJournals` | crates/verlet-history-sqlite/src/lib.rs:489-559 | A clone adds one row to the target's stream for every copy, in order. |
| `Fencing.EpochsNeverDecrease` | crates/verlet-history-sqlite/src/lib.rs:1300-1358 | Over any run by any number of handles, the epochs of the committed events of one stream never decrease in sequence order and never exceed the recorded minimum. |
| `Fencing.FenceIsMonotone` | crates/verlet-history-sqlite/src/lib.rs:1300-1358 | The recorded minimum never drops in any run; a run presenting only epoch 0 leaves the fence table as it found it. |
| `Fencing.StaleHandleIsShutOut` | crates/verlet-history-sqlite/src/lib.rs:1300-1358 | A handle below a stream's minimum cannot add an event to that stream by any call. |
| `Fencing.StaleHandleCanOnlyClear` | crates/verlet-history-sqlite/src/lib.rs:489-607 | What a call by a handle below a thread's minimum does to the thread at once: no event on its stream, no row, no move of its leaf or base, except that a fork over it and an emptying clone clear its leaf and replace or remove its base. |
| `Fencing.JournalIsLinear` | crates/verlet-history-sqlite/src/lib.rs:1360-1460 | In every reachable state each stream counts 1, 2, 3, … in commit order and event ids are globally unique. |
| `Fencing.ReadsAgree` | crates/verlet-history-sqlite/src/lib.rs:731-741 | Each read is a prefix of every later read of the same stream, and a read from `s` is a suffix of the whole read. |
| `Fencing.AtMostOneFencedAppend` | crates/verlet-history-sqlite/src/lib.rs:140-161 | Of all non-empty fenced appends that expect the same sequence of one stream, at most one ever commits in any run. |
| `Branches.PathIsBranch` | crates/verlet-history-sqlite/src/lib.rs:1691-1709 | The parent walk succeeds exactly when the leaf exists under the coordinates, and returns a chain of rows from a root to that leaf; a scope mismatch is the only other outcome for a leaf of the thread. |
| `Branches.BranchIsPath` | crates/verlet-history-sqlite/src/lib.rs:1691-1709 | Partner of the above: any chain from a root to the leaf is the one the walk returns. |
| `Branches.PathStable` | crates/verlet-history-sqlite/src/lib.rs:1691-1709 | Rows added later never change a branch that could be read. |
| `Branches.CheckIsReach` | crates/verlet-history-sqlite/src/lib.rs:1881-1900 | On an acyclic fork graph the cycle check refuses exactly when the child is an ancestor of the new parent, or is it. |
| `Branches.CycleCheckIsExact` | crates/verlet-history-sqlite/src/lib.rs:1881-1900 | A fork edge, new or replacing an old one, is admitted if and only if the fork graph stays acyclic. |
| `Transactions.CommitEffect` | crates/verlet-history-sqlite/src/lib.rs:611-670 | Every committed call only adds rows, under its own coordinates; only a turn input names a turn; fork edges change only by clone and fork; parents exist earlier under the same coordinates. |
| `Transactions.RunGrows` | crates/verlet-history-sqlite/src/lib.rs:404-607 | Over any run no entry and no event is ever changed or removed, and the journal only grows at its end. |
| `Contexts.RunKeepsWellFounded` | crates/verlet-history-sqlite/src/lib.rs:561-607 | Both graphs stay well-founded in every reachable state: entry parents are earlier rows of the same thread, leaves and base leaves exist, thread bases are acyclic even when replaced. |
| `Contexts.ContextAlwaysBuilds` | crates/verlet-history-sqlite/src/lib.rs:1711-1777 | In every reachable state building a context reports neither a cycle nor a missing entry; with one scope per thread it always succeeds. |
| `Contexts.ScopeMismatchExactly` | crates/verlet-history-sqlite/src/lib.rs:1711-1777 | In every reachable state building a context fails if and only if some thread on the fork line is read at a leaf of another scope, and then it reports the scope mismatch. |
| `Contexts.StripKeepsProvenance` | crates/verlet-history/src/lib.rs:3750-3769 | Stripping thread-start identities keeps entries and source cuts in exact correspondence. |
| `Contexts.ContextProvenance` | crates/verlet-history-sqlite/src/lib.rs:1711-1777 | The ids of the source cuts, concatenated, are the ids of the context entries, in order; no cut is empty and only the last can be the thread's own. |
| `Contexts.CutsNameTheirThread` | crates/verlet-history-sqlite/src/lib.rs:1757-1763 | Every id of a source cut is an entry under the cut's own coordinates, each thread has one cut at most, and a cut is marked inherited if and only if its thread is not the one asked for. |
| `Contexts.ContextDecomposes` | crates/verlet-history-sqlite/src/lib.rs:1711-1777 | A context is what the thread inherits followed by the visible part of its own branch. |
| `Contexts.ForkContext` | crates/verlet-history-sqlite/src/lib.rs:1711-1777 | A fork's context is its parent's context at the cut followed by the fork's own visible branch. |
| `Contexts.InheritedPrefixIsFrozen` | crates/verlet-history-sqlite/src/lib.rs:1711-1777 | When every base on the ancestor line names its parent leaf, no run that neither clones over nor re-forks a thread of the line changes what the thread inherits, and later contexts still begin with it. |
| `Views.Undisturbed` | crates/verlet-history-sqlite/src/lib.rs:1711-1777 | An operation on one thread leaves every context alone that is built without entering that thread. |
| `Views.AppendExtendsView` | crates/verlet-history-sqlite/src/lib.rs:611-670 | After an append the thread reads as before with exactly the new entry, as given, at the end; with an explicit parent it reads as the inherited part, the branch to that parent and the new entry. |
| `Views.TurnInputExtendsView` | crates/verlet-history-sqlite/src/lib.rs:318-387 | A turn input seen for the first time adds exactly one entry, naming the turn, at the end of what the thread reads as. |
| `Views.SelectShowsBranch` | crates/verlet-history-sqlite/src/lib.rs:404-472 | After a selection the thread reads as its inherited part and the branch to the selected leaf, or the inherited part alone. |
| `Views.CloneShowsBranch` | crates/verlet-history-sqlite/src/lib.rs:489-559 | A clone reads, kind by kind and in order, as the source branch it copied and nothing else, and no existing row changes. |
| `Views.ForkShowsParent` | crates/verlet-history-sqlite/src/lib.rs:561-607 | A fresh fork reads exactly as its parent did at the cut. |
| `Turns.TurnRecordedOnce` | crates/verlet-history-sqlite/src/lib.rs:870-878 | In every reachable state there is at most one entry per thread and turn id; clones never create one. |
| `Turns.RetryReturnsRecordedEntry` | crates/verlet-history-sqlite/src/lib.rs:318-387 | Retrying a recorded turn after any intervening calls, through any handle, returns the same entry and leaves all tables unchanged if both are user messages of the same content or the inputs are the very same, and is refused otherwise. |
| `Replay.ReplayIsFold` | crates/verlet-history-sqlite/src/lib.rs:940-1000 | Replaying the journal gives each selected thread the fold of its branch events and touches no other thread. |
| `Replay.RebuildRestoresFold` | crates/verlet-history-sqlite/src/lib.rs:887-1000 | The rebuild succeeds if and only if every branch row of a selected thread is sound; from any cache at all it then restores the journal fold on every thread with a selection event and leaves all else alone. |
| `Replay.AgreementKeptExactly` | crates/verlet-history-sqlite/src/lib.rs:404-472 | From a state where the cache is the journal fold on every thread, a committed call keeps it so if and only if forks and emptying clones target a thread without a leaf and raw records restate the leaves they speak of. (What the next opening does is `Reopen.SettledKeptExactly`.) |
| `Replay.CacheEqualsReplay` | crates/verlet-history-sqlite/src/lib.rs:887-1000 | Over every disciplined run the leaf cache is the fold of the journal in every state reached. |
| `Replay.ReopenIsIdentity` | crates/verlet-history-sqlite/src/lib.rs:887-1000 | After any disciplined run the rebuild on open changes nothing, and it repairs any corruption of the cache on threads with a selection event. |
| `Replay.ForkOverSelectionResurrects` | crates/verlet-history-sqlite/src/lib.rs:561-607 | A concrete run where the agreement fails: append, select, fork over the thread, reopen — the cleared leaf comes back. |
| `Reopen.SettledExactly` | crates/verlet-history-sqlite/src/lib.rs:887-1000 | Opening a store leaves it as it is if and only if every branch row of a selected thread is sound and the cache is the journal fold on every selected thread. |
| `Reopen.SettledKeptExactly` | crates/verlet-history-sqlite/src/lib.rs:887-1000 | From a store that opens unchanged, a committed call gives one that opens unchanged if and only if: a fork or emptying clone spares selected threads with a leaf, a selection is made on a thread whose branch rows are sound, and raw branch records on selected threads are sound and restate the leaf. |
| `Reopen.RunStaysSettledExactly` | crates/verlet-history-sqlite/src/lib.rs:887-1000 | Over whole runs: opening would change nothing at any point of the run if and only if every committed call keeps to that condition when it is made. |
| `Reopen.GarbledSelectionLocksStore` | crates/verlet-history-sqlite/src/lib.rs:948-965 | A concrete raw append, of a selection that does not parse, that is admitted, keeps cache and journal in agreement, and makes the store impossible to open again. |
| `StaleCalls.StaleFold` | crates/verlet-history-sqlite/src/lib.rs:1300-1358 | The fence is by stream and replay by thread: a stale call changes the journal's fold of the thread exactly as the raw records it carries about the thread say, whichever stream it may still write. |
| `StaleCalls.StaleAtNextOpening` | crates/verlet-history-sqlite/src/lib.rs:887-1000 | Exactly where a stale call has left the thread once the store is opened again: at what its raw records about the thread say last, or else at the fold before, on a selected thread; at no leaf after a fork over an unselected thread or an emptying clone; at its leaf otherwise. |
| `StaleCalls.StaleRecordMovesLeaf` | crates/verlet-history-sqlite/src/lib.rs:948-1000 | A concrete stale handle that appends a selection about the thread to another stream: the call commits and the next opening clears the leaf. |
| `StaleCalls.StaleForkClearsLeaf` | crates/verlet-history-sqlite/src/lib.rs:561-607 | A concrete stale handle that forks over the thread: the call commits and clears the leaf, and the next opening brings it back on top of the new base. |
| `SessionStore.StepKeepsInvariant` | crates/verlet-history-sqlite/src/lib.rs:611-670 | The store's invariant — well-founded graphs, linear journal, unique turns — is kept by every call. |
| `SessionStore.SqliteSessionStore.ReadEvents` | crates/verlet-history-sqlite/src/lib.rs:1462-1505 | Returns the rows of the stream, all of them or from a sequence on. |
| `SessionStore.SqliteSessionStore.BranchPath` | crates/verlet-history-sqlite/src/lib.rs:1691-1709 | The cursor loop, pushing then reversing, computes the branch of the recursive definition. |
| `SessionStore.SqliteSessionStore.ValidateBaseCycle` | crates/verlet-history-sqlite/src/lib.rs:1881-1900 | The cursor loop with its visited set decides as the definition `CycleCheckIsExact` is about. |
| `SessionStore.SqliteSessionStore.BuildContextFrom` | crates/verlet-history-sqlite/src/lib.rs:1711-1777 | The recursive builder with its mutated `visiting` set computes the context and leaves the set as it was. |
| `SessionStore.SqliteSessionStore.BuildContext` | crates/verlet-history-sqlite/src/lib.rs:474-487 | In a valid store the only possible failure is a scope mismatch, the provenance of the result is exact, and every cut names the thread its entries belong to and is inherited if and only if that is another thread. |
| `SessionStore.SqliteSessionStore.InsertEvent` | crates/verlet-history-sqlite/src/lib.rs:1360-1437 | Adds one row with the next sequence, or refuses and changes nothing. |
| `SessionStore.SqliteSessionStore.EnforceLease` | crates/verlet-history-sqlite/src/lib.rs:1300-1358 | Admits an epoch if and only if it is at the recorded minimum or above it and a raised minimum fits the column; the minimum then is that epoch. A refusal changes nothing. |
| `SessionStore.SqliteSessionStore.Append` | crates/verlet-history-sqlite/src/lib.rs:611-670 | The call commits as one transaction or leaves every table as it was, and keeps the invariant. |
| `SessionStore.SqliteSessionStore.AppendTurnInput` | crates/verlet-history-sqlite/src/lib.rs:318-387 | As above for a turn input, returning the recorded entry on a retry. |
| `SessionStore.SqliteSessionStore.SelectBranch` | crates/verlet-history-sqlite/src/lib.rs:404-472 | As above for a branch selection. |
| `SessionStore.SqliteSessionStore.CloneBranch` | crates/verlet-history-sqlite/src/lib.rs:489-559 | As above for a clone, returning the last copy. |
| `SessionStore.SqliteSessionStore.ForkByReference` | crates/verlet-history-sqlite/src/lib.rs:561-607 | As above for a fork; the lease epoch plays no part. |
| `SessionStore.SqliteSessionStore.AppendEvents` | crates/verlet-history-sqlite/src/lib.rs:675-699 | As above for a batch; a failed batch leaves neither events nor a raised fence behind, a committed one returns exactly the rows added. |
| `SessionStore.SqliteSessionStore.AppendEventsFenced` | crates/verlet-history-sqlite/src/lib.rs:701-729 | As above, and it commits only when the stream stands at the expected sequence. |
| `SessionStore.SqliteSessionStore.RebuildActiveLeaves` | crates/verlet-history-sqlite/src/lib.rs:887-1000 | The replay loop computes the rebuild, from any state of the tables. |
| `Normalize.TrimLinesIsPass` | agent-tools/tool-edit/src/lib.rs:761-776 | Splitting, trimming every line's end and joining is one right-to-left pass. |
| `Normalize.TableIsExact` | agent-tools/tool-edit/src/lib.rs:761-776 | Character by character, which are written as a quote, a double quote, a hyphen or a space, that every other stays, and which count as space. |
| `Normalize.NormalizeConcat` | agent-tools/tool-edit/src/lib.rs:761-776 | The normal form of a concatenation holds both normal forms, in order, with at most padding between them. |
| `Normalize.NormalizeIdempotent` | agent-tools/tool-edit/src/lib.rs:761-776 | Normalization is idempotent. |
| `Normalize.NormalizeLineCount` | agent-tools/tool-edit/src/lib.rs:761-776 | Normalizing keeps the number of lines if and only if the text does not end in a blank line without a newline; otherwise it loses that one line. |
| `Matching.FindFrom` | agent-tools/tool-edit/src/lib.rs:778-812 | The first occurrence at or after a position, or none when there is none. |
| `Matching.FindTextExactly` | agent-tools/tool-edit/src/lib.rs:778-812 | A match is by normal forms if and only if the old text does not occur as it is and its non-empty normal form occurs in the normal form of the content; either way it is the first one, of the length of what it matches. |
| `Matching.CountIsMost` | agent-tools/tool-edit/src/lib.rs:814-823 | The greedy count is the greatest number of disjoint occurrences there are. |
| `Matching.OccurrencesSurvive` | agent-tools/tool-edit/src/lib.rs:814-823 | Two disjoint exact occurrences are still two disjoint occurrences after normalization. |
| `Matching.AcceptedIsUnique` | agent-tools/tool-edit/src/lib.rs:381-404 | An accepted old text with a non-empty normal form has no second disjoint exact occurrence in the content, and its normal form none in the normal form of the content. |
| `Matching.DisjointUniquenessIsExact` | agent-tools/tool-edit/src/lib.rs:814-823 | Acceptance rules out a second disjoint occurrence for exactly the old texts whose normal form is not empty. |
| `Matching.UniquenessIsExact` | agent-tools/tool-edit/src/lib.rs:378-404 | Acceptance guarantees that the old text occurs once, overlaps included, if and only if its normal form is not empty and, wherever the old text agrees with itself moved by `p`, the shortest text holding both copies counts two. |
| `Matching.OverlapIsAccepted` | agent-tools/tool-edit/src/lib.rs:378-404 | A concrete accepted edit that is not unique: "aa" in "aaa". |
| `Matching.SecondPassIsSound` | agent-tools/tool-edit/src/lib.rs:372-404 | Offsets found on the replacement base lie inside that base and read the old text or its normal form. |
| `Composition.AcceptedIsUniqueWhereLeftAlone` | agent-tools/tool-edit/src/lib.rs:761-823 | With any composition in front of the character table, an accepted old text whose full form is not empty has no two disjoint occurrences whose edges composition leaves alone. |
| `Composition.JoinedIsNotCounted` | agent-tools/tool-edit/src/lib.rs:761-823 | A concrete composition, of "e" and the combining acute accent, under which an old text that occurs twice is accepted. |
| `BatchEdit.NeighbourCheckIsEnough` | agent-tools/tool-edit/src/lib.rs:406-417 | On sorted non-empty spans the check of neighbouring pairs passes if and only if all spans are pairwise disjoint. |
| `BatchEdit.OverlapIsExact` | agent-tools/tool-edit/src/lib.rs:406-417 | For a batch in any order, the sorted check sees an overlap if and only if two spans share a position. |
| `BatchEdit.ApplyReplacements` | agent-tools/tool-edit/src/lib.rs:881-891 | The reverse in-place loop equals the concatenation of gaps and replacements taken from the original text. |
| `BatchEdit.ReplacementLands` | agent-tools/tool-edit/src/lib.rs:881-891 | Every replacement stands whole in the result, where its span began, moved by the replacements before it. |
| `BatchEdit.UntouchedStays` | agent-tools/tool-edit/src/lib.rs:881-891 | Every character outside the spans stands in the result, moved by the replacements before it. |
| `BatchEdit.SubstituteLength` | agent-tools/tool-edit/src/lib.rs:881-891 | The result holds nothing else: its length is what those add up to. |
| `BatchEdit.PlanIgnoresOrder` | agent-tools/tool-edit/src/lib.rs:406-417 | Sorting and checking give the same verdict and the same plan for every order of the batch. |
| `LineGroups.RangeIsHits` | agent-tools/tool-edit/src/lib.rs:855-879 | The line range of a replacement is exactly the lines it touches. |
| `LineGroups.GroupAllOk` | agent-tools/tool-edit/src/lib.rs:893-939 | Grouping loses no replacement, keeps their order, and gives groups that are apart and cover only touched lines. |
| `LineGroups.BlocksArePlain` | agent-tools/tool-edit/src/lib.rs:893-939 | Over the normalized lines the grouped form is plain replacement. |
| `LineGroups.GroupedIsHit` | agent-tools/tool-edit/src/lib.rs:893-939 | A line belongs to a group if and only if some replacement touches it. |
| `GroupedEdit.SplitWithEndings` | agent-tools/tool-edit/src/lib.rs:825-838 | The loop cuts the text after every newline; concatenating the lines gives the text back. |
| `GroupedEdit.LineSpans` | agent-tools/tool-edit/src/lib.rs:840-853 | The recorded bounds are the offsets of the lines. |
| `GroupedEdit.ReplacementLineRange` | agent-tools/tool-edit/src/lib.rs:855-879 | Returns the first line touched and the line after the last; the "outside" error is given exactly for a replacement that reaches outside the text. |
| `GroupedEdit.BuildGroups` | agent-tools/tool-edit/src/lib.rs:893-918 | The grouping loop never indexes out of range and computes the groups. |
| `GroupedEdit.ApplyPreservingLines` | agent-tools/tool-edit/src/lib.rs:893-939 | Fails exactly when line counts differ; otherwise renders untouched lines from the original and rewritten groups from the normalized text. |
| `GroupedEdit.GroupedRefinesPlain` | agent-tools/tool-edit/src/lib.rs:893-939 | The line-preserving form refines plain replacement: over the normalized lines both are equal, and a line is kept verbatim if and only if no replacement touches it. |
| `Splice.ToLfIsTwoReplacements` | agent-tools/tool-edit/src/lib.rs:590-592 | The two replacements for CRLF and CR are one pass. |
| `Splice.RestoreRoundTrip` | agent-tools/tool-edit/src/lib.rs:594-599 | Restoring line endings is undone by normalizing to LF. |
| `Splice.LinesCorrespond` | agent-tools/tool-edit/src/lib.rs:710-723 | In a text without a lone CR before its end, the lines of the LF form are the original lines, each normalized. |
| `Splice.SpliceUnchangedLines` | agent-tools/tool-edit/src/lib.rs:725-759 | The loop over the changes, with its index into the original lines, computes the splice or reports a different line count. |
| `Splice.DetectsFirstEnding` | agent-tools/tool-edit/src/lib.rs:583-588 | A file counts as CRLF if and only if its first newline exists and is preceded by CR. |
| `Splice.WrittenEndings` | agent-tools/tool-edit/src/lib.rs:725-759 | For every diff whose inserted lines hold no CR, a file whose newlines, of which it has some, are all CRLF is written with CRLF only, and a file without CR is written without. |
| `Splice.SpliceKeepsLines` | agent-tools/tool-edit/src/lib.rs:725-759 | For every diff of a file without a lone CR before its end, the file written is one piece per change: for a kept line the very characters of the original line it stands for, for an inserted line its text with the detected ending, for a deleted line nothing; each piece normalizes to the line of the diff, and the diff uses up the original lines exactly. |
| `Splice.SpliceIsCorrect` | agent-tools/tool-edit/src/lib.rs:725-759 | For every valid diff of a spliceable file the splice succeeds and its LF form is exactly the new content. |
| `Splice.SpliceConditionIsExact` | agent-tools/tool-edit/src/lib.rs:725-759 | The splice is correct for every change to a file if and only if the file has no lone CR, except perhaps as its last character when the file uses CRLF. |
| `EditRun.MatchAllIsPointwise` | agent-tools/tool-edit/src/lib.rs:381-404 | Matching a batch succeeds if and only if every edit is accepted on its own, and gives each its own span. |
| `EditRun.PlanIsSound` | agent-tools/tool-edit/src/lib.rs:372-417 | A plan is sorted, pairwise disjoint, non-empty and inside the replacement base. |
| `EditRun.NormalExactly` | agent-tools/tool-edit/src/lib.rs:372-379 | The run goes over to normal forms if and only if some old text does not occur as it is but does in normal form. |
| `EditRun.NewContentExactly` | agent-tools/tool-edit/src/lib.rs:314-434 | A batch gets as far as a new content if and only if it is not empty, has no empty old text, every edit is accepted, no two spans share a position, and the content does not end in a blank unterminated line when normal forms are used; it is refused for overlap if and only if only that fails. |
| `EditRun.FirstRefusal` | agent-tools/tool-edit/src/lib.rs:381-404 | Matching stops at the first edit that is not accepted, and says whether its old text is missing or how often it counts. |
| `EditRun.NewContentApplies` | agent-tools/tool-edit/src/lib.rs:419-431 | The new content is the content with the whole batch applied. Without normal forms every replacement stands at its span moved by those before it, every other character stands moved likewise, and there is nothing else. With them, exactly the lines no edit touches stand verbatim and in order, woven with the touched normalized lines with all their replacements. |
| `EditRun.LineCountRefusal` | agent-tools/tool-edit/src/lib.rs:372-431 | For every content and batch the new content is refused with "different line count" if and only if the batch has a plan, some edit of it matches only after normalization, and the content ends in a blank line without a newline. |
| `EditRun.SpliceRefusal` | agent-tools/tool-edit/src/lib.rs:733-744 | The splice fails, always with "different line count", if and only if some line the diff keeps has no line of the original left. |
| `EditRun.WholeRunRefusal` | agent-tools/tool-edit/src/lib.rs:314-467 | For every file, batch and diff the whole run is refused with "different line count" if and only if the new content is refused so, or it is found and some line the diff keeps has no line of the original left. |
| `EditRun.CleanNeverRunsOut` | agent-tools/tool-edit/src/lib.rs:314-467 | In a file without a lone CR before its end, and with a valid diff, only the first of these can happen. |
| `EditRun.LoneCrIsRefused` | agent-tools/tool-edit/src/lib.rs:725-744 | A concrete file with a lone CR on which the whole run is refused by the splice. |
| `EditRun.BlankEndedIsRefused` | agent-tools/tool-edit/src/lib.rs:893-904 | A concrete file and edit on which the run is refused so. |
| `EditRun.OrderDoesNotMatter` | agent-tools/tool-edit/src/lib.rs:372-431 | Any permutation of a batch succeeds or fails alike and gives the same content. |
| `EditRun.AcceptedBatch` | agent-tools/tool-edit/src/lib.rs:372-431 | Every edit of a successful batch replaces a span of its own that reads its old text or the normal form of it; unless blank, the old text has no second disjoint occurrence in the content, nor its normal form in the normal form of the content. |
| `EditRun.MatchEdits` | agent-tools/tool-edit/src/lib.rs:381-404 | The matching loop stops at the first edit that is missing or not unique, with its index and count. |
| `EditRun.HasOverlap` | agent-tools/tool-edit/src/lib.rs:406-417 | The window loop finds an overlap exactly when neighbouring spans overlap. |
| `EditRun.EditContent` | agent-tools/tool-edit/src/lib.rs:314-434 | The run from raw text to new content: it gives the new content with the whole batch applied, and every refusal in the order the tool gives it. |
| `EditRun.EditFile` | agent-tools/tool-edit/src/lib.rs:314-467 | The whole run, content then splice; with a valid diff, a file whose newlines are all CRLF is written with CRLF only, and a file without CR without. |
| `EditRun.EditEndToEnd` | agent-tools/tool-edit/src/lib.rs:314-467 | A successful edit of a spliceable file is written under whatever diff is used, and the written file reads, line endings aside, as exactly the new content. |
| `TruncateHead.TruncationIsMaximal` | agent-tools/tool-core/src/lib.rs:54-132 | Truncated output is the longest run of whole leading lines within both limits. |
| `TruncateHead.TruncationExactly` | agent-tools/tool-core/src/lib.rs:54-132 | A text is truncated if and only if it has too many lines or bytes; the totals, the limit named and the case of a first line too long are what they say. |
| `TruncateHead.TruncateByLines` | agent-tools/tool-core/src/lib.rs:54-132 | The accumulating loop gives the whole text, or the longest run of whole leading lines within both limits, with the totals and the limit that stopped it. |
| `Paging.RangeIsLines` | agent-tools/tool-read/src/lib.rs:193-216 | The bytes of a line range are those lines joined by newlines. |
| `Paging.TruncateSelection` | agent-tools/tool-core/src/lib.rs:54-132 | On selected lines, where a trailing empty line counts for the selection but not for the truncation, the output is still all of them, or a proper non-empty part, or the first line is too long. |
| `Paging.PageShows` | agent-tools/tool-read/src/lib.rs:91-183 | A page read at any line shows whole lines from there and names the first line not shown, unless that very line is too long; it goes no further than the limit, and stops sooner only for the line cap or the byte cap. |
| `Paging.FollowIsExact` | agent-tools/tool-read/src/lib.rs:91-183 | Following the stated offsets from any line terminates, never asks past the end, and shows every line once and in order up to the first one too long to show. |
| `Paging.PagesAreTheFile` | agent-tools/tool-read/src/lib.rs:91-216 | From the first line, with no limit or any fixed positive one, the pages reach the end if and only if every line fits, and then, joined by newlines, they are the file. |
| `Paging.FinishesExactly` | agent-tools/tool-read/src/lib.rs:91-183 | For every file and every limit, following the stated offsets from the first line ends with a page nothing follows if and only if the file is within the size limit, the limit is absent or positive, and every line fits a page; the pages joined by newlines are then the file. |
| `Paging.NoPageCompletes` | agent-tools/tool-read/src/lib.rs:107-119 | Under a limit of zero or less no served page, at any offset, says that nothing follows. |
| `Paging.LimitBelowOneGoesBack` | agent-tools/tool-read/src/lib.rs:107-119 | Under a limit of zero or less, at a line it does not reach back over the start of the file from, the page is empty and points at itself or at a line before it. |
| `Paging.LimitCountsFromEnd` | agent-tools/tool-read/src/lib.rs:107-119 | A negative limit that reaches back over the start of the file counts from its end: the page goes up to so many lines before the end, unless a cap stops it sooner, and then points at an offset before the file. |
| `Paging.NegativeLimitRepeats` | agent-tools/tool-read/src/lib.rs:107-119 | A concrete two-line file on which limit -1 shows the same page over and over. |
| `Paging.OffsetsInside` | agent-tools/tool-read/src/lib.rs:91-102 | An offset is refused, naming the line count, exactly when it lies past the last line. |
| `Paging.Read` | agent-tools/tool-read/src/lib.rs:63-183 | The read as it runs: an error if and only if the file is too large or the offset lies past its last line; for a positive limit or none, a page from the line the offset names, of whole lines, ending at the limit or sooner only for a cap, and naming the first line not shown. |
| `Utf16.RoundTrip` | agent-tools/tool-core/src/lib.rs:147-163 | Decoding undoes encoding for every text. |
| `Utf16.CutIsClip` | agent-tools/tool-core/src/lib.rs:154-163 | Cutting the code units and decoding lossily keeps the scalars that fit and writes one U+FFFD for a split pair. |
| `Utf16.ClippingIsExact` | agent-tools/tool-core/src/lib.rs:154-163 | A text over the limit is cut to exactly `max_units` code units: a scalar prefix, followed by U+FFFD just when the limit splits a surrogate pair (sections 2.1 and 2.2 of RFC 2781). |
| `Walk.SurvivesStep` | agent-tools/tool-core/src/lib.rs:313-360 | The rule about a whole path, one entry at a time: the first survives, and the rest survives with one more ignore file in force. |
| `Walk.WalkIsRule` | agent-tools/tool-core/src/lib.rs:313-360 | The walk lists a file or directory if and only if it and all directories above it survive the ordered rules with none named `.git`, and fails if and only if something surviving cannot be looked up or read. |
| `Walk.ListingDistinct` | agent-tools/tool-core/src/lib.rs:313-360 | With distinct names per directory no path is listed twice. |
| `Walk.PathsAreNames` | agent-tools/tool-core/src/lib.rs:445-453 | Distinct paths show as distinct relative names; a directory's trailing slash never makes it collide with a file. |
| `Walk.LeqIsLexicographic` | agent-tools/tool-core/src/lib.rs:309-310 | The order of the output is lexicographic by character. |
| `Walk.Walker.AddIgnoreFile` | agent-tools/tool-core/src/lib.rs:393-427 | Pushes the matcher of a usable ignore file, nothing for a missing one. |
| `Walk.Walker.IsIgnored` | agent-tools/tool-core/src/lib.rs:429-443 | The folding loop says "ignored" if and only if the last matcher with an opinion ignores the path. |
| `Walk.Walker.WalkDirectory` | agent-tools/tool-core/src/lib.rs:313-360 | Appends its listing to the files and gives back the matcher stack as it was. |
| `Walk.WalkFiles` | agent-tools/tool-core/src/lib.rs:269-311 | The result is sorted by relative path, holds exactly the surviving items, none twice, and every other kind of root is answered as the tool does. |
| `Dedupe.RunKeepsInvariant` | crates/verlet-io-pgqrs/src/lib.rs:178-277 | Under every schedule, late cancellations included, claims and their holders match one to one and no submit sends twice. |
| `Dedupe.EnqueuedAtMostOnce` | crates/verlet-io-pgqrs/src/lib.rs:178-210 | For a key of which no submit is cancelled after its message went out, every schedule enqueues at most one message, whatever happens to submits of other keys. |
| `Dedupe.SentExactly` | crates/verlet-io-pgqrs/src/lib.rs:178-210 | Under every schedule a submit's message is out if and only if it stands enqueued or accepted, or was cancelled after its message went out. |
| `Dedupe.ReleaseIsOwn` | crates/verlet-io-pgqrs/src/lib.rs:249-277 | Under every schedule a release or a drop that changes the table deletes the releaser's own claim and no other. |
| `Dedupe.ClaimedExactlyWhileHeld` | crates/verlet-io-pgqrs/src/lib.rs:212-277 | Under every schedule a key is claimed if and only if some submit of it is in flight, accepted or failed to release; so after a finished release with no rival the key is free. |
| `Dedupe.VerdictsAreHonest` | crates/verlet-io-pgqrs/src/lib.rs:178-210 | Under every schedule an accepted submit has its message in the queue, a rejected one has none, and a failed one has one if and only if it was cancelled after its message went out. |
| `Dedupe.LateCancelDuplicates` | crates/verlet-io-pgqrs/src/lib.rs:70-102 | For any two submits of one key, an interleaving that enqueues both: the first is cancelled after its message went out, which frees the key. |
| `Dedupe.PromiseWithoutAtomicity` | crates/verlet-io-pgqrs/src/lib.rs:178-210 | When a cancellation may land anywhere, every schedule keeps at most one message of a key if and only if no two submits have it. |
| `Dedupe.ScriptEffect` | crates/verlet-io-pgqrs/src/lib.rs:178-210 | What one uninterrupted submit adds up to under each possible failure. |
| `Dedupe.IngressQueue.TryClaim` | crates/verlet-io-pgqrs/src/lib.rs:212-247 | Inserts the row unless the key has one, and says whether it did. |
| `Dedupe.IngressQueue.ReleaseKey` | crates/verlet-io-pgqrs/src/lib.rs:249-277 | Deletes the row of the key. |
| `Dedupe.PendingDedupeClaim.Release` | crates/verlet-io-pgqrs/src/lib.rs:89-94 | Deletes the row and disarms; a failed delete leaves the guard armed. |
| `Dedupe.PendingDedupeClaim.Drop` | crates/verlet-io-pgqrs/src/lib.rs:96-102 | An armed guard releases its key when dropped, a disarmed one does nothing. |
| `Dedupe.Submit` | crates/verlet-io-pgqrs/src/lib.rs:178-210 | The submit as it runs performs exactly the steps of the protocol that the interleaving theorems are about. |

## Left out

- NormalizeForMatch: does not model NFKC composition, a Unicode table of its library; the character table and the trimming of line ends are modelled in full. `Composition` says what carries over for any composition and shows one that breaks the promise of uniqueness.
- NormalizeConcat: for the same reason, speaks of the form without composition.
- NormalizeIdempotent: for the same reason, speaks of the form without composition.
- NormalizeLineCount: for the same reason, speaks of the form without composition.
- OccurrencesSurvive: for the same reason, speaks of the form without composition.
- AcceptedIsUnique: for the same reason, speaks of the form without composition.
- DisjointUniquenessIsExact: for the same reason, speaks of the form without composition.
- UniquenessIsExact: for the same reason, speaks of the form without composition.
- IsDiff: stands for any valid line diff; the `similar` algorithm that picks one is not modelled, so the splice theorems hold for whatever it picks.
- Read: does not model lossy decoding of invalid UTF-8; a text in `Paging` and `TruncateHead` is the bytes of valid UTF-8, so that its length is its byte length. The wording of the notices and the cap on the size of a result are left out; a notice is the offset or line it names.
- EditContent: does not model the byte-order mark, lossy decoding, the size ceiling, the display diff, nor the cap on the result.
- WalkFiles: does not model ignore-pattern syntax (a matcher is any function of path and kind), non-UTF-8 names, nor a tree that changes during the walk other than an entry that vanishes before it is looked up.
- InsertEvent: does not model record and schema validation, which is one flag on the record, nor timestamps, payload codecs and provenance.
- NextSequence: does not model overflow of 64-bit sequences.
- Submit: does not model a store without a dedupe file, where every claim succeeds, nor a crash of the process.
- SQL text, connections, read-only and in-memory opening, async plumbing and cancellation of store calls: a transaction is atomic and rolls back on error.
- Legacy column migration, which rewrites old event rows when a store of an earlier release is opened, and observation records, a side table no other table refers to: neither touches the journal order, the branches or the fence that the model is about.
- Rendering of context entries as model messages: the context theorems are about entries and source cuts.
- Leasing, completion, retry and hold of queued messages: thin wrappers over a queue library.
- Glob, grep and write tools, path resolution inside the tool root, CLI wrappers, the guest SDK, manifests and contracts, the chat UI and the console.
