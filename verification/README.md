# Verified models of the agent and browser runtimes

This project models the parts of the two runtimes whose behaviour is hard to see from reading one
function, and proves what they promise over every input or every run. Each module follows one
source file, or one component of it:

- `ExecutionLedger`, `ExecutionJournal`: the ledger of observed writes and reads that decides when
  test data has been cleaned up.
- `ObservationPaging`, `ReadProgress`, `BrowserObservations`, `DeliveryHistory`: pages of captured
  text, reading progress carried across captures, the bounded cache and the references an agent may
  act on, and what recorded progress rests on over a history.
- `SessionPermits`, `ClosureJournal`, `LeaseSupervisor`: permits with fencing tokens, the durable
  closure journal across crashes, and lease renewal with conservative local deadlines.
- `JsonSchema`, `ModelToolSchema`: which values a schema accepts, and the projection of tool schemas.
- `OperationSummary`, `ContextPolicy`, `ModelContext`, `ObservationBudget`, `ToolCorrection`: bounded
  transformations of results, prompts, observations and corrections.
- `DomObservation`, `MutationLog`, `ActionFeedback`, `SpecCheckCatalog`, `SpecExpansion`: histories and
  catalogs.
- `Utf16`, `Json`, `JsonSize`, `JsonText`, `Numerals`, `Wrappers`: strings as UTF-16 code units, JSON
  values, their texts and the sizes of these in bytes, numerals, optional values.

A component that changes state is a class whose methods are proved against a step function on a
value of its state; the lemmas about runs are about that function. Clocks, identifiers, the DOM and
network answers are inputs of the steps. Predicates that live in other packages (whether a request
concerns a record, whether a criterion is flawed) are function parameters, so the theorems hold for
every choice of them.

## Where the code does less than its description

Each of these is a lemma of the table below.

- A last line that fits a page can be omitted when it ends in a surrogate pair, because cutting the
  pair costs more bytes than keeping it and misleads the binary search
  (`LineLostExactlyWhen`, `FittingLineCanBeLost`).
- Paging of a text that ends in a lone high surrogate never ends (`ChainEndsExactlyWhenReadable`),
  and once all of its pages were read, looking for the next unread one does not end either
  (`UnreadLoopEndsExactlyWhen`).
- A deadline computed without its own server stamp can come late by the time between two clock
  readings (`SessionPermits.UnstampedDeadlineConservativeExactlyWhen`), and, before the first stamped
  synchronization, by as much as the local wall clock is behind the server
  (`UnsynchronizedPassesLateExactlyWhen`); a lease without a stamp rests on
  the local wall clock (`LeaseSupervisor.UnstampedDeadlineConservativeExactlyWhen`).
- Preventing a launch moves an earlier time of revocation (`RevocationMovesExactlyWhen`).
- Projection rejects accepted values for properties called `format` (`FormatPropertyLost`), for
  literals exactly when no literal is stripped to them (`LiteralLostExactlyWhen`, `LiteralFormatLost`),
  for negated formats and for exclusive choices that a format decides (`NegatedFormatLost`,
  `ExclusiveFormatLost`), and for unions with open branches exactly when a field suits none of the
  branches that name it (`UnionLostExactlyWhen`, `OpenBranchLost`).
- A fully accepted batch of checks can be refused when submitted again, although it changes nothing
  (`ResubmissionChangesNothing`, `ResubmissionMayBeRefused`).
- The command that makes a phase count as proven may be older than the last invalidation
  (`CommandOutlivesInvalidation`).
- A reference is a hash of resource, type, id and account, and is not checked for being new. A list
  asked for before a creation and answered after it shows the new record both as an existing one and
  as one awaiting its receipt; the two can end up under one reference with different account aliases,
  and share one confirmation. A run can then end without a notice although a write under one alias has
  lost its confirmation to a write under the other (`SharedReferenceLosesConfirmation`). Closeout
  itself needs no distinct references: over any run the last record of each reference is proven
  (`RunProves`, `CloseoutByReference`), and every write is closed by a proof of its own record if what
  concerns a record also concerns the last one under its reference (`CloseoutConserves`).
- Once the ledger holds two records of one object that disagree on ownership or a known initial state,
  even an update that changes nothing is refused (`UnchangedAcceptedExactlyWhen`).

## Model

| member | source | states |
|---|---|---|
| ExecutionJournal.CloseoutConserves | apps/agent-runtime/src/execution-journal.ts:1869-1900 | When a run from a fresh journal ends without a cleanup notice, every write ever recorded is still in the ledger, and it was refused or belongs to a record that is completed with a stored confirmation (a network one justified) or retained with a read after its latest write. References may be shared, as long as a stored write that concerns a record also concerns the last record under its reference, as it does when equal references mean equal identities. |
| ExecutionJournal.CloseoutByReference | apps/agent-runtime/src/execution-journal.ts:1869-1900 | Without any assumption on references: at the end of a run without a notice every write ever recorded is still there, and was refused or belongs to a record whose reference is closed: its last record is retained with a later read that shows it, or completed, and then with a stored confirmation if any stored write that was not refused concerns that last record. |
| ExecutionJournal.RunProves | apps/agent-runtime/src/execution-journal.ts:1633-1780 | After any run, however references are shared: if a stored write that was not refused concerns the last record of a reference to be cleaned up, that record is completed only with a stored confirmation (a network one justified by the latest write and the most recent later read), and it is retained only with a later read that shows it. |
| ExecutionLedger.ReconcileAllProves | apps/agent-runtime/src/execution-journal.ts:1633-1748 | Reconciling establishes this from any ledger whatever. |
| ExecutionJournal.FindingsKeepProven | apps/agent-runtime/src/execution-journal.ts:1010-1187 | UI contradictions and restorations keep it, although they replace the confirmations of a whole reference. |
| ExecutionJournal.CreatedKeepsProven | apps/agent-runtime/src/execution-journal.ts:1333-1357 | Records pushed by an update that is then refused keep it, even if they share a reference with a closed one. |
| ExecutionJournal.RunSettles | apps/agent-runtime/src/execution-journal.ts:1633-1780 | After any run with distinct references every record is settled: completed only with a stored confirmation if a stored write that was not refused concerns it, retained only with a later read that shows it, and every network confirmation justified by the latest write and the most recent later read. |
| ExecutionJournal.NewWriteReopens | apps/agent-runtime/src/execution-journal.ts:1633-1748 | When a new write that is not refused is observed, at any place of its batch, no record it concerns is completed or retained afterwards, whatever was confirmed before and whatever references are shared, unless a later read of the batch shows the record or the UI shows it restored. |
| ExecutionJournal.RequestsStayUnread | apps/agent-runtime/src/execution-journal.ts:298-540 | From a new write on, through any further requests that do not show the record, no read stands after the write that shows it and no UI confirmation comes back, also when old requests are observed again. |
| ExecutionJournal.UnreadHasNoProof | apps/agent-runtime/src/execution-journal.ts:1639-1780 | A counting write without a later read that shows the record leaves neither a network proof nor a retention proof. |
| ExecutionJournal.UnreadWriteKeepsOpen | apps/agent-runtime/src/execution-journal.ts:1639-1748 | A record with a counting write that no read follows is neither completed nor retained, unless the UI vouches for it. |
| ExecutionJournal.PlacesAreFixed | apps/agent-runtime/src/execution-journal.ts:298-303 | Over any run the request order only grows, so observing old requests again never changes a sequence number. |
| ExecutionJournal.RunRemembers | apps/agent-runtime/src/execution-journal.ts:400-435 | Over any run every receipt's sequence is the place of its request, and every write ever recorded is still there unless the truncation flag is set. |
| ExecutionJournal.StepRemembers | apps/agent-runtime/src/execution-journal.ts:298-441 | One observation, update or block keeps order, flags and writes, and stores every write it was shown. |
| ExecutionJournal.ObserveSettles | apps/agent-runtime/src/execution-journal.ts:218-714 | Whatever the ledger was, after an observation and its UI findings the last record of each reference is proven, however references are shared; with distinct references every record is settled. |
| ExecutionJournal.UpdateSettles | apps/agent-runtime/src/execution-journal.ts:1333-1577 | An accepted update, whatever statuses it proposed, leaves the last record of each reference proven, and with distinct references every record settled. |
| ExecutionJournal.BlockSettles | apps/agent-runtime/src/execution-journal.ts:1607-1632 | Giving up all pending cleanups keeps every record settled. |
| ExecutionJournal.FindingsKeepSettled | apps/agent-runtime/src/execution-journal.ts:1010-1187 | UI contradictions and restorations keep a settled ledger settled, also with shared references: a record that loses its UI proof is reopened, one that gains one holds it. |
| ExecutionJournal.InvalidationKeepsSettled | apps/agent-runtime/src/execution-journal.ts:173-194 | Taking back UI confirmations reopens exactly the completed records that rested on them and keeps the rest settled. |
| ExecutionJournal.StepAdvances | apps/agent-runtime/src/execution-journal.ts:173-1900 | No operation removes or renames a record, the first record under each key keeps its ownership and its known initial state, and every confirmation keeps naming an existing record. |
| ExecutionJournal.BaselinesAreKept | apps/agent-runtime/src/execution-journal.ts:1504-1530 | Between any two moments of a run records stay the same objects, and the first under each key keeps its ownership and, once known, its initial state: what is to be restored cannot be rewritten to what was left behind. |
| ExecutionJournal.UpdateKeepsBaselines | apps/agent-runtime/src/execution-journal.ts:1504-1530 | After an accepted update every record of an object the ledger held has the ownership of the first record of it, and its initial state if that was known; none has become a creation of this run. |
| ExecutionJournal.OwnershipHasCause | apps/agent-runtime/src/execution-journal.ts:1518-1530 | Over any run an object counts as created by this run only because of a sighting with a confirmed and successful creation, a creation bound by name, or one that a UI row completed; never because an update says so. |
| ExecutionJournal.AmendAcceptedExactlyWhen | apps/agent-runtime/src/execution-journal.ts:1424-1547 | Exactly when a change to one record is accepted: no other record shares its reference, ownership and known initial state are those of the first record of the object, a blocked or retained status comes with a note, a newly completed one cites evidence of a stored confirmation, and a retained record is this run's and still there. |
| ExecutionJournal.ChangeTakesEffect | apps/agent-runtime/src/execution-journal.ts:1462-1493 | What a change leaves in the records: the same object with the status, evidence, ownership and initial state it gives or else those it had, a retained one at its latest write; and when a record may be added. |
| ExecutionJournal.UnchangedAcceptedExactlyWhen | apps/agent-runtime/src/execution-journal.ts:1504-1547 | An update that changes nothing is accepted exactly if records of one object agree on its baseline and none is closed by evidence of nothing while the first is open; two records of an object that disagree make every update fail. |
| ExecutionJournal.RefusedKeepsLedger | apps/agent-runtime/src/execution-journal.ts:1345-1357 | A refused update leaves the ledger as it was, but for creations that a UI row completed, which stay to be cleaned up. |
| ExecutionJournal.NoticeExactlyWhen | apps/agent-runtime/src/execution-journal.ts:1827-1900 | There is something to report exactly when a write was dropped, a sighting waits, a record to be cleaned up is neither completed nor retained, or a write that was not refused concerns no such record, a creation none of this run's. |
| ExecutionJournal.PendingSettledExactly | apps/agent-runtime/src/execution-journal.ts:667-700 | A sighting waits until the receipt of its last creation is complete, is given up if that failed, and becomes a record to be cleaned up if it succeeded and there is room. |
| ExecutionJournal.SightedExactly | apps/agent-runtime/src/execution-journal.ts:650-663 | Sightings wait in order, each once, and at most fifty at a time. |
| ExecutionJournal.RegisteredExactly | apps/agent-runtime/src/execution-journal.ts:977-998 | What is found is registered once per reference, to be cleaned up, as long as there are fewer than fifty records. |
| ExecutionJournal.RestorationTakesEffect | apps/agent-runtime/src/execution-journal.ts:1110-1187 | A page that shows an existing record as it was completes its cleanup exactly if its last counting write is a replacement or patch or there is none, and its proof replaces all others of the reference. |
| ExecutionJournal.RestorationCompletes | apps/agent-runtime/src/execution-journal.ts:701-714 | A page that shows the record as it was leaves it completed, with its proof, after the whole observation. |
| ExecutionJournal.ActingTakesUiProofs | apps/agent-runtime/src/execution-journal.ts:237-247 | After a command that acts nothing is proven in the UI but what its own page shows restored. |
| ExecutionJournal.InvalidationTakes | apps/agent-runtime/src/execution-journal.ts:173-194 | An invalidation takes exactly the UI proofs in question and reopens exactly the completed records that had one. |
| ExecutionJournal.WriteStoredExactly | apps/agent-runtime/src/execution-journal.ts:400-435 | A receipt costs all UI proofs exactly if it is new or tells something new; the latest 200 stay, and the ledger says so when it drops one. |
| ExecutionJournal.ReceiptsMerge | apps/agent-runtime/src/execution-journal.ts:402-425 | What is confirmed stays confirmed, an unconfirmed receipt only adds evidence to a confirmed one, and otherwise the later receipt holds where it says something. |
| ExecutionJournal.ReadStoredExactly | apps/agent-runtime/src/execution-journal.ts:485-540 | A read that is new or shows other states costs exactly the UI proofs of the records it shows changed, and then stands in the place of one of the same request. |
| ExecutionJournal.RequestTakesPlace | apps/agent-runtime/src/execution-journal.ts:298-303 | Each request takes the next place in the order once; beyond 2000 the ledger says that it has lost track. |
| ExecutionJournal.RunSeparates | apps/agent-runtime/src/execution-journal.ts:298-540 | Over any run there is one write and one read receipt for a request, and no two share a place unless the order was truncated. |
| ExecutionJournal.BlockingChanges | apps/agent-runtime/src/execution-journal.ts:1607-1632 | Giving up turns pending cleanups into blocked ones, and nothing else. |
| ExecutionJournal.SharedReferenceLosesConfirmation | apps/agent-runtime/src/execution-journal.ts:570-700 | A concrete run of three observations: a list asked for before a creation and answered after it shows the record as existing and as awaiting its receipt, a write under one alias restores the existing one, the creation is confirmed and the record deleted under the other alias. The run ends without a notice, the restoration has no confirmation left because reconciling the second record removed it, and the ledger is not settled. |
| ExecutionJournal.SettledWriteIsClosedOut | apps/agent-runtime/src/execution-journal.ts:1827-1843 | In a settled ledger with nothing outstanding, each stored write is refused or closed by one of its records. |
| ExecutionJournal.StoreWriteRemembers | apps/agent-runtime/src/execution-journal.ts:400-435 | Storing a receipt keeps every known write key or sets the truncation flag, and the new receipt is there. |
| ExecutionJournal.StoreReadRemembers | apps/agent-runtime/src/execution-journal.ts:513-540 | Storing a read keeps sequences in place and touches no write. |
| ExecutionJournal.ExecutionJournal.ObserveOutput | apps/agent-runtime/src/execution-journal.ts:218-714 | An observation as the program performs it: UI invalidation, requests in order, pending records, registrations, reconciling, UI findings; the ledger it leaves is the specified one, the last record of each reference is proven, and with distinct references every record is settled. |
| ExecutionJournal.ExecutionJournal.UpdateProgress | apps/agent-runtime/src/execution-journal.ts:1333-1577 | An update is merged (statuses, evidence, ownership, a first initial state; records sharing a reference cannot be addressed), checked against what the ledger held and against stored confirmations, accepted or refused, and reconciled as specified; an accepted one leaves the last record of each reference proven. |
| ExecutionJournal.ExecutionJournal.ReconcileCleanup | apps/agent-runtime/src/execution-journal.ts:1633-1748 | The loop over the records computes the specified reconciliation. |
| ExecutionJournal.ExecutionJournal.StoreWriteReceipt | apps/agent-runtime/src/execution-journal.ts:400-435 | Upsert of a write receipt with merging, UI invalidation and the cap of 200 with its flag. |
| ExecutionJournal.ExecutionJournal.StoreReadReceipt | apps/agent-runtime/src/execution-journal.ts:513-540 | Replacement of a read receipt, with invalidation of UI proofs that its record states contradict. |
| ExecutionJournal.ExecutionJournal.ObserveOne | apps/agent-runtime/src/execution-journal.ts:298-540 | Placing one request in the order (at most 2000, else flagged), then its write and its read. |
| ExecutionJournal.ExecutionJournal.InvalidateUiConfirmations | apps/agent-runtime/src/execution-journal.ts:173-194 | Removes the UI confirmations of all or of one record and reopens the records completed by them. |
| ExecutionJournal.ExecutionJournal.ApplyUi | apps/agent-runtime/src/execution-journal.ts:1010-1187 | Applies the findings of a UI observation in order. |
| ExecutionJournal.ExecutionJournal.BlockCleanup | apps/agent-runtime/src/execution-journal.ts:1607-1632 | Turns every pending cleanup into a blocked one and nothing else. |
| ExecutionJournal.ExecutionJournal.HasNotice | apps/agent-runtime/src/execution-journal.ts:1869-1900 | There is a notice exactly when something is pending, unaccounted for, awaiting its receipt, or lost to truncation. |
| ExecutionLedger.ReconcileAllSettles | apps/agent-runtime/src/execution-journal.ts:1633-1748 | With distinct references, reconciling leaves every record settled whatever the ledger was before. |
| ExecutionLedger.ProofJustifies | apps/agent-runtime/src/execution-journal.ts:1660-1720 | A network confirmation is made only if the latest counting write succeeded and the most recent later read shows the created record gone or the existing one in its initial state. |
| ExecutionLedger.RetentionIsStillThere | apps/agent-runtime/src/execution-journal.ts:1749-1780 | A retention holds only if the latest write succeeded, is not a deletion, and a read after it contains the record. |
| ExecutionLedger.ProvedExactlyWhen | apps/agent-runtime/src/execution-journal.ts:1639-1720 | There is a network proof, and which, exactly when the last write that concerns the record and was not refused was confirmed and succeeded, and either deleted a created record that the last later read able to list it does not list, or wrote back an existing one that the last later read listing it shows in its initial state. |
| ExecutionLedger.RetainableExactlyWhen | apps/agent-runtime/src/execution-journal.ts:1749-1780 | There is a retention proof exactly when that last write was a successful one other than a deletion, and the last read of the resource that could list the record comes after it and does. |
| ExecutionLedger.ReconciledWithProof | apps/agent-runtime/src/execution-journal.ts:1721-1738 | A record with a proof is completed, as deleted or restored, with all the evidence, and its confirmation replaces every other of its reference. |
| ExecutionLedger.ReconciledWithoutProof | apps/agent-runtime/src/execution-journal.ts:1648-1748 | A record without one keeps only UI proofs, and is pending again exactly if it was completed with none left although a write concerns it, or retained and that is no longer proven at the same write. |
| ExecutionLedger.AnswersMean | apps/agent-runtime/src/execution-journal.ts:98-108 | Which statuses and bodies mean success, which mean refusal, and which leave it open. |
| ExecutionLedger.LatestIsLatest | apps/agent-runtime/src/execution-journal.ts:1639-1643 | The chosen mutation has the greatest sequence of all writes that match the record and were not refused. |
| ExecutionLedger.RecentIsMostRecent | apps/agent-runtime/src/execution-journal.ts:1670-1708 | The chosen read is relevant, and no relevant read has a greater sequence. |
| ExecutionLedger.ReconcileKeepsOthers | apps/agent-runtime/src/execution-journal.ts:1721-1727 | Reconciling one record leaves every record under another reference settled. |
| ObservationPaging.ReadPage | apps/agent-runtime/src/browser-observation.ts:1192-1246 | The page the binary search and the line search produce is the specified page, with its next cursor. |
| ObservationPaging.SearchFit | apps/agent-runtime/src/browser-observation.ts:1203-1211 | The binary search over JSON sizes returns what the specification's bisection returns. |
| ObservationPaging.PageWithinBudget | apps/agent-runtime/src/browser-observation.ts:1192-1246 | Every page's content stays within the page budget in escaped JSON bytes. |
| ObservationPaging.ChainEndsExactlyWhenReadable | apps/agent-runtime/src/browser-observation.ts:1192-1246 | Following next cursors from the start ends exactly when the content is a snapshot or does not end in a lone high surrogate. |
| ObservationPaging.ChainSteps | apps/agent-runtime/src/browser-observation.ts:1192-1246 | The cursors of a readable content strictly increase, each is the next cursor of the one before, and the last has none. |
| ObservationPaging.PagesTile | apps/agent-runtime/src/browser-observation.ts:1192-1246 | The stretches of the pages follow each other without gap or overlap from the first unit to the last. |
| ObservationPaging.TextPagesTile | apps/agent-runtime/src/browser-observation.ts:1192-1246 | The pages of a text, put together, are the text. |
| ObservationPaging.ShownUnlessOmitted | apps/agent-runtime/src/browser-observation.ts:1212-1235 | A page shows its stretch unless it says that a line was omitted. |
| ObservationPaging.SnapshotPageIsLines | apps/agent-runtime/src/browser-observation.ts:1212-1235 | Snapshot pages break only at line ends. |
| ObservationPaging.SnapshotPageIsLongest | apps/agent-runtime/src/browser-observation.ts:1203-1235 | A snapshot page that leaves out no line and is not the last takes exactly the whole lines that fit together. |
| ObservationPaging.TextPageIsFull | apps/agent-runtime/src/browser-observation.ts:1203-1215 | A page of a text that is not the last is full: five more units would not fit. |
| ObservationPaging.LineLostExactlyWhen | apps/agent-runtime/src/browser-observation.ts:1203-1235 | The exact sizes for which an unterminated last line within the budget is nevertheless omitted: the search visits its cut surrogate pair. |
| ObservationPaging.FittingLineCanBeLost | apps/agent-runtime/src/browser-observation.ts:1203-1235 | Such a line exists. |
| ObservationPaging.BisectAroundGap | apps/agent-runtime/src/browser-observation.ts:1203-1211 | What the binary search returns when sizes are not monotone because cutting a surrogate pair costs two bytes more. |
| ReadProgress.NextUnreadCursor | apps/agent-runtime/src/browser-observation.ts:1362-1368 | The loop over recorded pages returns the specified next unread cursor. |
| ReadProgress.NothingUnreadExactlyWhenAllDelivered | apps/agent-runtime/src/browser-observation.ts:1362-1368 | There is no next unread cursor exactly when the complete snapshot is recorded as delivered or every page of the chain is. |
| ReadProgress.InheritReadProgress | apps/agent-runtime/src/browser-observation.ts:1272-1311 | The loops over lines and pages mark what the specification marks. |
| ReadProgress.MarksExactlyCoveredPages | apps/agent-runtime/src/browser-observation.ts:1272-1311 | A page of the new capture is marked read exactly when all its lines were read in the previous one. |
| ReadProgress.InheritsExactly | apps/agent-runtime/src/browser-observation.ts:1272-1311 | What a new capture takes over, exactly: everything if everything was read, otherwise the pages of which every line lies in a page that was read and left nothing out, all pages as ones on offer, and as reading position the last page that shows the line it was on. |
| ReadProgress.InheritedProgressIsSound | apps/agent-runtime/src/browser-observation.ts:1272-1311 | When two captures have the same normalised content, the line of any position in an inherited page stands under the same number in the previous capture, equal but for capture identities, and all of it is recorded as delivered there, although reference widths and page ends differ. |
| DeliveryHistory.DeliveredWasShown | apps/agent-runtime/src/browser-observation.ts:1272-1360 | Over any history of deliveries, new captures and evictions from a fresh snapshot: every line of the current snapshot that counts as delivered, and is more than capture identities, was once really shown as a whole, in this capture or in an earlier one of the same normalised content. |
| DeliveryHistory.InheritanceTraced | apps/agent-runtime/src/browser-observation.ts:1272-1311 | What a new capture takes over was shown before it. |
| DeliveryHistory.PageShowsLine | apps/agent-runtime/src/browser-observation.ts:1212-1235 | A page of a snapshot shows the whole of every line that has a position in it. |
| ReadProgress.UnreadLoopEndsExactlyWhen | apps/agent-runtime/src/browser-observation.ts:1362-1368 | The loop for the next unread cursor ends exactly when the text can be read to its end or some page that can be reached was not read. |
| ReadProgress.SameNormalisedContentSameLines | apps/agent-runtime/src/observation-content.ts:4-9 | Texts with the same normalised content have the same number of lines, equal after erasing. |
| ReadProgress.InheritedIsValid | apps/agent-runtime/src/browser-observation.ts:1272-1311 | Inheriting progress keeps an observation's records consistent with its page chain. |
| BrowserObservations.EvictionKeepsNewest | apps/agent-runtime/src/browser-observation.ts:1125-1137 | Eviction reaches the cap, evicts oldest first and never the entry just saved. |
| BrowserObservations.CapturedText | apps/agent-runtime/src/browser-observation.ts:1088-1114 | A captured text fits its cap, and is kept whole if it already did. |
| BrowserObservations.AfterDeliveryIsValid | apps/agent-runtime/src/browser-observation.ts:1313-1360 | Recording a delivered page keeps the observation consistent. |
| BrowserObservations.DeliveryRecords | apps/agent-runtime/src/browser-observation.ts:1313-1360 | What a delivery leaves in the entry: nothing for a page not on offer, all of it read for the whole snapshot, the page with its next cursor for one that reads as the cache would show it, and for any page on offer its next cursor on offer. |
| BrowserObservations.EvictedIsForgotten | apps/agent-runtime/src/browser-observation.ts:1139-1146 | An evicted entry keeps only its name, capture and address. |
| BrowserObservations.CapturedTextIsCut | apps/agent-runtime/src/browser-observation.ts:1088-1114 | A text that does not fit is cut behind its last character that fits, a snapshot behind its last whole line. |
| Utf16.Utf8Prefix | apps/agent-runtime/src/browser-observation.ts:1384-1390 | The byte-bounded prefix fits the bound and is the whole text if that fits. |
| BrowserObservations.BrowserObservations.StaleRef | apps/agent-runtime/src/browser-observation.ts:315-329 | A command is refused exactly when it names a reference that is not exposed; one that passes stands in a delivered page of the current capture. |
| BrowserObservations.BrowserObservations.Save | apps/agent-runtime/src/browser-observation.ts:1082-1137 | The cache stays within its caps, keeps the saved entry with at most 256 KiB of its text, all of it if that fits, and counts its bytes exactly. |
| BrowserObservations.BrowserObservations.Evict | apps/agent-runtime/src/browser-observation.ts:1139-1146 | Evicting frees exactly the entry's bytes, and invalidates if it was the current snapshot. |
| BrowserObservations.BrowserObservations.Invalidate | apps/agent-runtime/src/browser-observation.ts:305-313 | Invalidation forgets the current snapshot and every exposed reference. |
| BrowserObservations.BrowserObservations.DeliverPage | apps/agent-runtime/src/browser-observation.ts:1313-1360 | A delivery is recorded in its entry; an exact page on offer of the current capture makes every reference in it one the agent may act on, and nothing else does. |
| BrowserObservations.BrowserObservations.DeliverCurrentPage | apps/agent-runtime/src/browser-observation.ts:466-475 | The pages of a request: for each that is exact, on offer and of the current capture, every reference in it may be acted on; whatever may be acted on stands in such a page; earlier references lapse; and each delivery is recorded in its entry. |
| BrowserObservations.BrowserObservations.Read | apps/agent-runtime/src/browser-observation.ts:703-735 | Reading offers a page only at a known cursor of a cached entry and exposes nothing while delivery is deferred. |
| BrowserObservations.BrowserObservations.Capture | apps/agent-runtime/src/browser-observation.ts:494-659 | A captured output is saved; a snapshot becomes current with no references exposed, and acting commands leave no current snapshot. |
| BrowserObservations.BrowserObservations.ShowSnapshot | apps/agent-runtime/src/browser-observation.ts:636-659 | A new snapshot inherits read progress from the previous one and becomes current. |
| SessionPermits.RunAdvances | apps/browser-runtime/src/session-permits.ts:53-208 | Over any run revocation is absorbing, a session's executor task never changes and its token never decreases, and an agent's permit is always the recorded executor's. |
| SessionPermits.RevokedForever | apps/browser-runtime/src/session-permits.ts:53-77 | After revocation nothing is accepted or asserted for the session again. |
| SessionPermits.AgentFenced | apps/browser-runtime/src/session-permits.ts:62-208 | Once an agent's permit is accepted, no later assertion for an agent with a smaller token succeeds. |
| SessionPermits.CurrentAgentPasses | apps/browser-runtime/src/session-permits.ts:161-208 | The owner of the accepted permit passes exactly until its deadline. |
| SessionPermits.PassesExactlyWhen | apps/browser-runtime/src/session-permits.ts:161-208 | An assertion passes exactly for the holder of an unexpired permit while connected: same lease and fencing token, same control generation, the executor of an agent's permit, no agent under a human or the system, startup only where allowed. |
| SessionPermits.PermitIsLastGranted | apps/browser-runtime/src/session-permits.ts:152-158 | Over any run the permit of a session is the last one granted for it. |
| SessionPermits.PassingIsLastGranted | apps/browser-runtime/src/session-permits.ts:161-208 | Over any run whoever passes carries the lease and fencing token of the last permit granted for the session. |
| SessionPermits.SupersededLeaseIsDenied | apps/browser-runtime/src/session-permits.ts:186-217 | Once a permit of another lease or fencing token is granted, the earlier one passes no assertion and reaches no network, unless a permit of its own is granted again. |
| SessionPermits.GrantsExactlyWhen | apps/browser-runtime/src/session-permits.ts:62-159 | Exactly when a permit is granted, ignored or denied: not revoked, of the same lease, no stale executor, the permit before it unexpired and one that it may follow (generation, human control, startup, executor, token, expiry), and time left. |
| SessionPermits.AcceptChanges | apps/browser-runtime/src/session-permits.ts:62-159 | What the decision changes: a granted permit runs until its time by stamp or estimate is over, with its executor recorded; a denied one costs the session exactly if the earlier one had expired or no time was left. |
| SessionPermits.GenerationNeverDecreases | apps/browser-runtime/src/session-permits.ts:94-100 | As long as a session is not revoked its control generation never decreases. |
| SessionPermits.EarlierGenerationIsDenied | apps/browser-runtime/src/session-permits.ts:94-100 | Whoever comes with an earlier control generation than one that was granted never passes again. |
| SessionPermits.DisconnectedNeverPasses | apps/browser-runtime/src/session-permits.ts:46-48 | While the connection is down nothing passes. |
| SessionPermits.PassingMeansUnexpired | apps/browser-runtime/src/session-permits.ts:138-177 | From a new register and over any run with true stamps: whenever an assertion passes, the server clock is before the expiry of the permit plus the lag from measuring a round trip to using it and the drift between two clock readings. Permits without a stamp of their own come after a stamped synchronization, unless the first reading of the wall clock was good; nothing else is supposed of the local clock. |
| SessionPermits.StampedPassingMeansUnexpired | apps/browser-runtime/src/session-permits.ts:138-177 | If every permit carries a true stamp, an assertion that passes is before the expiry on the server plus the lag, whatever the local wall clock reads and however long setting a deadline takes. |
| SessionPermits.UnsynchronizedPassesLateExactlyWhen | apps/browser-runtime/src/session-permits.ts:28-158 | A permit accepted without a stamp before any synchronization passes some assertion after its expiry on the server exactly when the wall clock was behind the server's when the register was made. |
| SessionPermits.UnstampedDeadlineConservativeExactlyWhen | apps/browser-runtime/src/session-permits.ts:138-158 | A deadline set without a stamp is conservative exactly when the clock moved no further between its two readings than the estimate of the server clock is ahead. |
| SessionPermits.RunIsConservative | apps/browser-runtime/src/session-permits.ts:37-44 | Over any run with true stamps no permit outlives its expiry on the server by more than lag and drift, provided the register's own estimate is used only after a stamped synchronization or was good from the start. |
| SessionPermits.SessionPermits.AcceptPermit | apps/browser-runtime/src/session-permits.ts:62-159 | Acceptance with its checks in order, its effect on permits, executors and revocation. |
| SessionPermits.SessionPermits.AssertPermit | apps/browser-runtime/src/session-permits.ts:161-208 | Assertion with its checks in order; an expired permit is revoked. Exactly whom it lets pass is `PassesExactlyWhen`. |
| SessionPermits.SessionPermits.NetworkAllowed | apps/browser-runtime/src/session-permits.ts:210-217 | Network access is allowed exactly when an assertion without an owner passes, so never for a superseded lease. |
| SessionPermits.SessionPermits.Synchronize | apps/browser-runtime/src/session-permits.ts:37-45 | Only a parsable server time moves the estimate. |
| SessionPermits.SessionPermits.RevokeSession | apps/browser-runtime/src/session-permits.ts:53-57 | Revocation removes the permit and bars the session. |
| ClosureJournal.RunAdvances | apps/browser-runtime/src/closure-journal.ts:192-417 | Over any run with a crash before or after any write: every record stays sound, a session keeps one epoch and at most one launch identity, closure is written once, evidence is append-only, and a launch that first appears after revocation is born closed. |
| ClosureJournal.StepAdvances | apps/browser-runtime/src/closure-journal.ts:192-417 | One operation, wherever it dies, keeps soundness and undoes nothing. |
| ClosureJournal.LaunchesAtMostOnce | apps/browser-runtime/src/closure-journal.ts:190-233 | After a launch, a revocation or a prevention no later launch of the session succeeds. |
| ClosureJournal.UnansweredLaunchStillCounts | apps/browser-runtime/src/closure-journal.ts:190-233 | A launch that became durable without being answered still bars the session, with the error each case names. |
| ClosureJournal.ProofIsReplayed | apps/browser-runtime/src/closure-journal.ts:362-417 | A challenge repeated by the same daemon gets the very same proof and writes nothing; for another recovery it is refused. |
| ClosureJournal.ProofIsKept | apps/browser-runtime/src/closure-journal.ts:362-417 | A given proof stays in the record, which testifies to it. |
| ClosureJournal.ProofsAgree | apps/browser-runtime/src/closure-journal.ts:362-417 | Any two proofs for a session agree on method, closing time, epoch and host. |
| ClosureJournal.RevocationMovesExactlyWhen | apps/browser-runtime/src/closure-journal.ts:235-267 | The time of revocation changes exactly when a revoked, never launched session has its launch prevented at another moment. |
| ClosureJournal.ClosureIsKept | apps/browser-runtime/src/closure-journal.ts:235-360 | A completion, prevention or aborted launch that closes a session records exactly its method, time and audit, even if the process dies after the write; every record after any run has them, and every later proof names the method and time. |
| ClosureJournal.RecordsAreCaused | apps/browser-runtime/src/closure-journal.ts:192-417 | Over any run from an empty disk, whatever dies: launch, revocation, attached process, closure and every proof of a record were written by an operation of its own epoch that was entitled to, with its values. |
| ClosureJournal.OperationIsDurable | apps/browser-runtime/src/closure-journal.ts:208-417 | What each operation leaves in the record of its session, even if it dies after its write. |
| ClosureJournal.LaunchAndRevocationAreKept | apps/browser-runtime/src/closure-journal.ts:208-296 | A recorded launch is the launch of its session for good, and a revocation stays one. |
| ClosureJournal.CarriedOutExactlyWhen | apps/browser-runtime/src/closure-journal.ts:190-417 | Exactly when each operation is carried out, and how it answers. |
| ClosureJournal.RefusedBecause | apps/browser-runtime/src/closure-journal.ts:190-417 | Which error a refusal names, in the order of the checks, and that it leaves the disk alone. |
| ClosureJournal.DyingIsAllOrNothing | apps/browser-runtime/src/closure-journal.ts:95-127 | A process that dies before the write leaves the disk as it was, after it as the operation would. |
| ClosureJournal.SessionClosureJournal.RecordLaunch | apps/browser-runtime/src/closure-journal.ts:208-233 | Refused for any existing record, else writes the launched record. |
| ClosureJournal.SessionClosureJournal.PreventLaunch | apps/browser-runtime/src/closure-journal.ts:235-267 | Refused once launched, else overwrites the record with a closed, revoked, unlaunched one. |
| ClosureJournal.SessionClosureJournal.Revoke | apps/browser-runtime/src/closure-journal.ts:269-282 | Writes the revocation and keeps an earlier time. |
| ClosureJournal.SessionClosureJournal.AttachProcess | apps/browser-runtime/src/closure-journal.ts:284-296 | Only a launched, unclosed session takes a process. |
| ClosureJournal.SessionClosureJournal.RecordAbortedLaunch | apps/browser-runtime/src/closure-journal.ts:299-321 | Closes a revoked session that never launched; otherwise does nothing. |
| ClosureJournal.SessionClosureJournal.Complete | apps/browser-runtime/src/closure-journal.ts:324-360 | Closes a launched and revoked session of this host with the method, time and audit given, and keeps an earlier closure. |
| ClosureJournal.SessionClosureJournal.Prove | apps/browser-runtime/src/closure-journal.ts:362-417 | Replays the proof of this request and daemon or appends a new one. |
| ClosureJournal.SessionClosureJournal.DurableWrite | apps/browser-runtime/src/closure-journal.ts:95-127 | One write is atomic: it happens entirely or not at all. |
| ModelToolSchema.OpenAiFunctionSchema | apps/agent-runtime/src/model-tool-schema.ts:9-76 | The assembled parameters, or the error for unions of non-objects and for root combinators. |
| ModelToolSchema.ProjectedExactlyWhen | apps/agent-runtime/src/model-tool-schema.ts:11-73 | Which schemas are projected and which error the others get: unions of objects, or objects, without a root combinator. |
| ModelToolSchema.DroppedExactlyWhen | apps/agent-runtime/src/model-tool-schema.ts:78-93 | Exactly formats and patterns with a Unicode property escape are dropped. |
| ModelToolSchema.LiteralFieldIs | apps/agent-runtime/src/model-tool-schema.ts:38-54 | A property fixed to different literals takes exactly these, with the type that all of them name. |
| ModelToolSchema.ProjectionAcceptsMore | apps/agent-runtime/src/model-tool-schema.ts:9-93 | Every value the canonical schema accepts is accepted by the function parameters, if the schema has no negation or exclusive choice, literals and property names survive stripping, and the root union is of closed objects. |
| ModelToolSchema.ProjectionMeaning | apps/agent-runtime/src/model-tool-schema.ts:9-93 | The parameters of a union accept exactly the objects that the union accepts field by field, formats and Unicode patterns aside. |
| ModelToolSchema.StripMeaning | apps/agent-runtime/src/model-tool-schema.ts:78-93 | The stripped schema accepts exactly what the schema accepts once formats and Unicode patterns are not checked. |
| ModelToolSchema.StripAcceptsMore | apps/agent-runtime/src/model-tool-schema.ts:78-93 | Stripping rejects nothing that was accepted, without negation. |
| ModelToolSchema.MergeMeaning | apps/agent-runtime/src/model-tool-schema.ts:14-67 | The merged object accepts at least, and with literals their own schemas accept exactly, what the union accepts field by field. |
| ModelToolSchema.FieldwiseIsMerged | apps/agent-runtime/src/model-tool-schema.ts:15-64 | What the union accepts field by field, the merged object accepts. |
| ModelToolSchema.MergedIsFieldwise | apps/agent-runtime/src/model-tool-schema.ts:15-64 | What the merged object accepts, the union accepts field by field, if literals are accepted by their own schemas. |
| ModelToolSchema.MergeAcceptsMore | apps/agent-runtime/src/model-tool-schema.ts:14-67 | Merging a union of closed objects rejects nothing the union accepts. |
| ModelToolSchema.BranchIsFieldwise | apps/agent-runtime/src/model-tool-schema.ts:14-67 | A value of a closed branch satisfies the union field by field. |
| ModelToolSchema.FieldSchemaMeaning | apps/agent-runtime/src/model-tool-schema.ts:24-54 | The schema of one property accepts what one of its alternatives accepts, and nothing else if literals suit their own schemas. |
| ModelToolSchema.MergeTame | apps/agent-runtime/src/model-tool-schema.ts:14-67 | Merging introduces no negation and no literal or property that stripping would lose. |
| ModelToolSchema.FormatPropertyLost | apps/agent-runtime/src/model-tool-schema.ts:78-93 | A closed object with a property called format still accepts a value exactly when the value lacks that field. |
| ModelToolSchema.NegatedFormatLost | apps/agent-runtime/src/model-tool-schema.ts:78-93 | A negated format becomes a rejection of everything once stripped. |
| ModelToolSchema.LiteralLostExactlyWhen | apps/agent-runtime/src/model-tool-schema.ts:78-93 | Of the values that a const or enum accepts, stripping keeps exactly those that some literal is stripped to. |
| ModelToolSchema.LiteralFormatLost | apps/agent-runtime/src/model-tool-schema.ts:78-93 | A const object with a field called format is accepted, and rejected once stripped. |
| ModelToolSchema.OpenBranchLost | apps/agent-runtime/src/model-tool-schema.ts:15-73 | A concrete union with an open branch and a value that the canonical schema accepts and the parameters reject. |
| ModelToolSchema.UnionLostExactlyWhen | apps/agent-runtime/src/model-tool-schema.ts:9-93 | For a union with branches open or closed: an accepted value is accepted by the parameters exactly when each of its fields that some branch names suits one of the branches that name it. |
| ModelToolSchema.ExclusiveFormatLost | apps/agent-runtime/src/model-tool-schema.ts:78-93 | An exclusive choice that a format decides accepts values of the other alternative, and none once stripped. |
| JsonSchema.WeakerAcceptsMore | apps/agent-runtime/src/model-tool-schema.ts:78-93 | Asserting less accepts more, for schemas without negation or exclusive choice. |
| OperationSummary.CompactValue | apps/agent-runtime/src/operation-summary.ts:96-176 | The loops compute the specified compaction: limits halved until the value fits, then the routing keys within their budgets. |
| OperationSummary.CompactFitsExactlyWhen | apps/agent-runtime/src/operation-summary.ts:96-176 | The JSON of the result is within the bound exactly when the bound is at least 18 bytes or halving the limits alone made the value fit. |
| OperationSummary.CompactStands | apps/agent-runtime/src/operation-summary.ts:96-176 | The result stands for the value except where it says that something is missing, with the full length of cut texts and the exact number of omitted items. |
| OperationSummary.OmissionMarkedExactlyWhen | apps/agent-runtime/src/operation-summary.ts:96-176 | Without an omission marker the result is the value without its hidden fields; if the value has no marker of its own, one appears exactly when something is missing. |
| OperationSummary.CompactIsClear | apps/agent-runtime/src/operation-summary.ts:96-176 | Whatever the value and the bound, no pixels and no hidden reasoning get into a summary, at any depth. |
| OperationSummary.CompactKeepsSmall | apps/agent-runtime/src/operation-summary.ts:96-148 | A value within the first limits and the bound is shown as it is, hidden fields aside. |
| OperationSummary.ShrunkIsFirstFit | apps/agent-runtime/src/operation-summary.ts:139-146 | The limits are halved just as often as it takes the value to fit, or texts to come down to sixty units. |
| OperationSummary.RoutingFieldsAreKept | apps/agent-runtime/src/operation-summary.ts:149-175 | An object cut down to its routing keys keeps, where there is room, every one of them that it has, after the marker, and nothing else. |
| OperationSummary.ShrinkToFit | apps/agent-runtime/src/operation-summary.ts:139-146 | The halving loop ends and returns the first result that fits, or the last. |
| OperationSummary.RouteFallback | apps/agent-runtime/src/operation-summary.ts:149-175 | The fallback keeps routing keys in order, each within its share of the remaining bytes. |
| OperationSummary.StandsWithoutOmission | apps/agent-runtime/src/model-context.ts:404-409 | What stands for a value and shows no omission is the value, hidden fields aside. |
| ContextPolicy.WindowBudget | apps/agent-runtime/src/context-policy.ts:51-83 | The smallest text allowance of the configured candidates, or none if no candidate is configured. |
| ContextPolicy.WithinMaxBytesExactlyWhen | apps/agent-runtime/src/context-policy.ts:51-83 | A request is within the bound exactly when it respects the configured bytes and leaves output reserve, images and framing inside every configured window. |
| ModelContext.BuildFitsOrIsMinimal | apps/agent-runtime/src/model-context.ts:109-335 | A request is built exactly when what trimming leaves fits everywhere; it is refused only with at most one undetailed turn, the fallback page chosen and all lists empty; the view is part of what is stored, the rest is counted, and the least valuable parts went first. |
| ModelContext.TrimConserves | apps/agent-runtime/src/model-context.ts:232-310 | Shown turns are a suffix of the stored ones, and shown plus omitted observations and evidence are conserved. |
| ModelContext.TrimOrder | apps/agent-runtime/src/model-context.ts:232-310 | Nothing is removed while something of lower value is still shown. |
| ModelContext.LatestTurnGoesLast | apps/agent-runtime/src/model-context.ts:232-310 | The latest turn is always shown, and keeps its details until every other turn, every saved observation and all evidence are gone and the page has been replaced. |
| ModelContext.TrimIsMinimal | apps/agent-runtime/src/model-context.ts:232-310 | What still does not fit has nothing left to trim. |
| ModelContext.RunStores | apps/agent-runtime/src/model-context.ts:63-107 | Over any run the completed turns are those with distinct calls and exactly their replies; kept plus compacted turns are all of them, in order, and the latest kept ones are detailed. |
| ModelContext.RecoveryKeepsLatest | apps/agent-runtime/src/model-context.ts:101-107 | Recovery keeps the latest turn with its details and counts the others. |
| ModelContext.TooManyImagesExactlyWhen | apps/agent-runtime/src/model-context.ts:109-335 | More than two reference images are refused before anything else. |
| ModelContext.CompleteGroupExactlyWhen | apps/agent-runtime/src/model-context.ts:63-77 | A turn is retained exactly when its calls are distinct and the replies are those calls in some order. |
| ModelContext.ModelContext.CompleteTurn | apps/agent-runtime/src/model-context.ts:63-98 | Refuses an incomplete group unchanged; else stores the turn, forgets older details and counts compacted summaries. |
| ModelContext.ModelContext.CompactForRecovery | apps/agent-runtime/src/model-context.ts:101-107 | Keeps only the latest turn and counts the others. |
| ModelContext.ModelContext.BuildRequest | apps/agent-runtime/src/model-context.ts:109-335 | The trimming loops compute the specified request, and the stored history is not touched. |
| ModelContext.TrimOlder | apps/agent-runtime/src/model-context.ts:234-242 | The loop that drops the oldest summaries. |
| ModelContext.TrimDetails | apps/agent-runtime/src/model-context.ts:243-249 | The loop that turns details into summaries, oldest first, sparing the last turn. |
| ModelContext.TrimSaved | apps/agent-runtime/src/model-context.ts:262-281 | The loop that drops saved observations from the end and counts them. |
| ModelContext.TrimObjects | apps/agent-runtime/src/model-context.ts:282-301 | The loop that drops object evidence from the end of one list and counts it. |
| DomObservation.ReopenedMeansClosed | apps/browser-runtime/src/dom-observation.ts:981-1102 | A region is reported reopened only if it, or a dialog of the same role and name, was captured and then missing from a later complete capture, both before this one. |
| DomObservation.PartialCaptureClosesNothing | apps/browser-runtime/src/dom-observation.ts:1093-1102 | A scoped or limited capture closes no region, and no open region is forgotten. |
| DomObservation.OpenExactlyWhen | apps/browser-runtime/src/dom-observation.ts:1005-1102 | What is open after a capture: each of its nodes that can be a region, and each region open before unless the capture saw the whole document and not this region. |
| DomObservation.OpensAs | apps/browser-runtime/src/dom-observation.ts:984-1044 | How a region opens: as the next opening of itself or of the one closed dialog whose name it alone bears, else as the first; untouched, by the last command, and proven exactly under the stated conditions. |
| DomObservation.VisitChanges | apps/browser-runtime/src/dom-observation.ts:1005-1044 | Visiting a node opens its region, removes the one whose place it takes, and leaves all others as they were. |
| DomObservation.ForgottenExactlyWhen | apps/browser-runtime/src/dom-observation.ts:1093-1102 | Only closed regions are forgotten, and exactly where there are more than four thousand. |
| DomObservation.ReportsAreShown | apps/browser-runtime/src/dom-observation.ts:1045-1091 | The reports are those of the shown nodes in order, each with the region the walk gave its node. |
| DomObservation.CommandIsLast | apps/browser-runtime/src/dom-observation.ts:66-75 | The command of a document is the last one marked since its first capture. |
| DomObservation.MarkChanges | apps/browser-runtime/src/dom-observation.ts:66-104 | An edit of a known target is recorded with exactly the open regions it touches, and an unknown target takes exactly the proofs of the open ones. |
| DomObservation.ProvenMeansVouched | apps/browser-runtime/src/dom-observation.ts:1027-1044 | A phase is reported proven only if its region opened at a capture with an earlier complete one and a marked command, and nothing was invalidated since. |
| DomObservation.OpensProvenExactlyWhen | apps/browser-runtime/src/dom-observation.ts:1027-1044 | A region opens proven exactly when a complete capture since the last invalidation precedes it, some command was marked at any time after the first capture, and no edited scope was replaced. |
| DomObservation.CommandOutlivesInvalidation | apps/browser-runtime/src/dom-observation.ts:106-121 | The marked command may be older than the last invalidation: a dialog can open proven without any command since. |
| DomObservation.FlagsMeaning | apps/browser-runtime/src/dom-observation.ts:66-121 | The two flags of a document, read as statements about its history. |
| DomObservation.LimitedExactlyWhen | apps/browser-runtime/src/dom-observation.ts:1046-1065 | The walk is limited by regions exactly when more than the allowed number are shown. |
| DomObservation.DocumentState.Snapshot | apps/browser-runtime/src/dom-observation.ts:981-1102 | The region part of a capture: opening, takeover, reports, closing and purging as specified. |
| DomObservation.DocumentState.MarkAction | apps/browser-runtime/src/dom-observation.ts:66-104 | Remembers the command, records the edited element, or withdraws proofs if the target is unknown. |
| DomObservation.DocumentState.InvalidatePhases | apps/browser-runtime/src/dom-observation.ts:106-121 | Withdraws the baseline and every proof. |
| MutationLog.LostExactlyWhen | apps/browser-runtime/src/dom-observation.ts:136-146 | History since a capture is lost exactly when it has no revision or lies more than 2000 mutations back; otherwise every mutation since is seen in order. |
| MutationLog.VerifiedSeesEveryMutation | apps/browser-runtime/src/dom-observation.ts:136-146 | From a fresh document, a verification without lost history sees exactly the mutations recorded after the capture. |
| MutationLog.RunIsValid | apps/browser-runtime/src/dom-observation.ts:444-463 | The capped log is always the latest of all mutations, numbered without gaps. |
| MutationLog.Recorder.RecordMutations | apps/browser-runtime/src/dom-observation.ts:447-454 | Recording numbers the mutations and keeps the latest 2000. |
| SpecCheckCatalog.DefineKeepsCatalog | apps/agent-runtime/src/spec-check-catalog.ts:75-237 | Ids stay check-1 to check-n, no check is removed or moved to another requirement, and the revision rises by one exactly when the contents change. |
| SpecCheckCatalog.ResubmissionChangesNothing | apps/agent-runtime/src/spec-check-catalog.ts:75-237 | Submitting a fully accepted batch again changes neither contents nor revision, and it is accepted again exactly when no item names an id after an earlier unnamed item was recognised as that entry. |
| SpecCheckCatalog.ResubmissionMayBeRefused | apps/agent-runtime/src/spec-check-catalog.ts:109-121 | A fully accepted batch that is refused when submitted again. |
| SpecCheckCatalog.SpecCheckCatalog.DefineChecks | apps/agent-runtime/src/spec-check-catalog.ts:75-237 | A batch is judged item by item as specified; ids, requirements and the revision behave as stated. |
| SpecCheckCatalog.AcceptedSettles | apps/agent-runtime/src/spec-check-catalog.ts:200-226 | After an accepted batch each item is in the catalog, under its id if it named one, and no id was named twice. |
| SpecCheckCatalog.RefusedForFirstDefect | apps/agent-runtime/src/spec-check-catalog.ts:95-200 | An item is refused for the first of nine defects in their order, and accepted exactly if it has none. |
| SpecCheckCatalog.AnsweredExactlyWhen | apps/agent-runtime/src/spec-check-catalog.ts:75-237 | A batch is judged exactly if it has one to a hundred items and names the present revision; otherwise nothing changes, and every judged item is answered. |
| SpecCheckCatalog.ItemIsTold | apps/agent-runtime/src/spec-check-catalog.ts:200-226 | What an item is told: why it is refused, or under which id it is held from now on. |
| SpecExpansion.ExpandsExactlyWhen | apps/agent-runtime/src/spec-check-catalog.ts:239-300 | A case expands exactly when its checks are distinct, known and of known requirements, and its bindings name checks of the case. |
| SpecExpansion.NotExpandedBecause | apps/agent-runtime/src/spec-check-catalog.ts:239-300 | Which error a case that is not expanded gets: of the reasons the first that holds. |
| SpecExpansion.ExpansionMeaning | apps/agent-runtime/src/spec-check-catalog.ts:239-300 | Each criterion is the catalog's check under its final id, and each binding lists exactly the final ids of the checks it named. |
| SpecExpansion.BindingRoundTrip | apps/agent-runtime/src/spec-draft.ts:183-240 | Names to ordinals to criterion ids to final ids gives each name's own final id. |
| SpecExpansion.NormalizeReferred | apps/agent-runtime/src/spec-draft.ts:183-240 | Normalization never misses an ordinal that the first translation wrote. |
| SpecExpansion.FinalIdsDistinct | apps/agent-runtime/src/spec-check-catalog.ts:277-297 | Final criterion ids are distinct over the whole specification. |
| Numerals.ParseOfDecimal | apps/agent-runtime/src/spec-draft.ts:217-226 | Reading back a written ordinal gives the ordinal. |
| SessionPermits.NumberOfDecimal | apps/browser-runtime/src/session-permits.ts:78-86 | A token that is a decimal numeral stands for its number. |
| JsonText.StringifiedLength | apps/agent-runtime/src/tool-correction.ts:80-91 | The sizes by which corrections, pages and summaries are bounded are the UTF-8 sizes of the JSON text, with its escapes (section 7 of RFC 8259). |
| Utf16.EncodedLength | apps/agent-runtime/src/browser-observation.ts:1384-1390 | The byte sizes of texts are those of their UTF-8 encoding (section 3 of RFC 3629). |
| Utf16.DecodedIsWhole | apps/agent-runtime/src/browser-observation.ts:1384-1390 | Decoding the bytes of a text gives a whole one with the same bytes, and the text itself if it was whole. |
| ObservationBudget.KeepsLongestPrefix | apps/browser-runtime/src/observation-budget.ts:57-93 | The kept nodes are the longest prefix within the byte target, or none, for regions in the order of their nodes, however many. |
| ObservationBudget.PrefixMonotone | apps/browser-runtime/src/observation-budget.ts:63-79 | A longer prefix of the nodes needs at least as many bytes, also where regions are cut off at 500. |
| ObservationBudget.KeptRegionsAreFirst | apps/browser-runtime/src/dom-observation.ts:1005-1091 | Regions pushed while the nodes are walked: those of the first nodes are the first regions. |
| ObservationBudget.FramesKeepOrder | apps/browser-runtime/src/dom-observation.ts:1168-1175 | Appending a frame with its nodes and regions keeps regions in the order of their nodes. |
| ObservationBudget.TrimmedKeepsOrder | apps/browser-runtime/src/observation-budget.ts:57-93 | So does trimming, so that an observation can be trimmed again. |
| ObservationBudget.TrimmedIsLinked | apps/browser-runtime/src/observation-budget.ts:63-79 | Kept nodes are a prefix; relations, regions and verified scopes are exactly, or among, those that point into it. |
| ObservationBudget.TrimmedTextIsLocated | apps/browser-runtime/src/observation-budget.ts:94-112 | The text keeps exactly the lines that name no node or a kept one, and each location that is not empty shows exactly a line naming its node. |
| ObservationBudget.LinesKeptExactly | apps/browser-runtime/src/observation-budget.ts:100-104 | Exactly the lines stay that name no node, or one that is kept. |
| ObservationBudget.NodeKeptExactly | apps/browser-runtime/src/observation-budget.ts:63-79 | What trimming keeps of a node: all of it, with exactly its relations to kept nodes, and its location if that lies within the kept text. |
| ObservationBudget.EveryRefLineHasItsNode | apps/browser-runtime/src/observation-budget.ts:94-112 | Each kept line that names a node is shown by a node unless a later line names it too. |
| ObservationBudget.SplitOfJoin | apps/browser-runtime/src/observation-budget.ts:97-112 | The kept text splits into the kept lines again. |
| ObservationBudget.RefExactlyWhen | apps/browser-runtime/src/observation-budget.ts:100-104 | A line names exactly the reference at its first opening that is followed by a name and its closing. |
| ObservationBudget.StructuredObservation.TrimObservation | apps/browser-runtime/src/observation-budget.ts:43-113 | The trimmed observation is the specified one, marked incomplete and truncated, with at most two limit events. |
| ObservationBudget.StructuredObservation.ApplyLongest | apps/browser-runtime/src/observation-budget.ts:80-93 | The binary search leaves the specified prefix. |
| ObservationBudget.LocateLines | apps/browser-runtime/src/observation-budget.ts:94-112 | The offset loop computes the specified lines and locations. |
| LeaseSupervisor.RunningMeansUnexpired | apps/agent-runtime/src/lease-supervisor.ts:76-174 | From its construction on and over any run without a stop from outside: as long as the execution is not aborted and due timers have fired, the server clock is before the end of the confirmed lease by more than the safety margin, give or take the drift, with at most one renewal in flight. |
| LeaseSupervisor.RunIsValid | apps/agent-runtime/src/lease-supervisor.ts:46-174 | While it runs, the deadline is armed and either the next renewal is scheduled or exactly one is in flight; once stopped nothing is scheduled and it stays stopped. |
| LeaseSupervisor.StoppedMeansAborted | apps/agent-runtime/src/lease-supervisor.ts:65-118 | Over any run from its construction the supervisor has stopped exactly if it has aborted the execution or was told to stop: a lost lease never leaves the task running. |
| LeaseSupervisor.AbortsExactlyWhen | apps/agent-runtime/src/lease-supervisor.ts:76-173 | A running execution is aborted exactly by a due deadline, a renewal begun when the safe time is over, a cancellation, a terminal failure, a lease that is too short, or from outside. |
| LeaseSupervisor.ConfirmedUntil | apps/agent-runtime/src/lease-supervisor.ts:76-100 | The exact deadline and safe time of a confirmed lease, by its duration, its stamp, or the wall clock and at most a minute. |
| LeaseSupervisor.NextAfterInterval | apps/agent-runtime/src/lease-supervisor.ts:102-156 | After a confirmed renewal the next comes after the interval, or at the safe time if that is earlier. |
| LeaseSupervisor.RetryDelayDoubles | apps/agent-runtime/src/lease-supervisor.ts:169-171 | The delay of a retry doubles with each failure in a row, from one second to four, give or take a fifth. |
| LeaseSupervisor.FailuresInARow | apps/agent-runtime/src/lease-supervisor.ts:145-168 | What counts as a failure in a row: each one since the last confirmed renewal. |
| LeaseSupervisor.StoppedIsInert | apps/agent-runtime/src/lease-supervisor.ts:65-74 | A stopped supervisor aborts nothing and counts nothing. |
| LeaseSupervisor.StartIsConservative | apps/agent-runtime/src/control-plane.client.ts:423-440 | The deadline of the first lease, shortened by the elapsed time, is conservative. |
| LeaseSupervisor.StepIsConservative | apps/agent-runtime/src/control-plane.client.ts:423-440 | Each truthfully stamped renewal keeps the deadline conservative. |
| LeaseSupervisor.UnstampedDeadlineConservativeExactlyWhen | apps/agent-runtime/src/lease-supervisor.ts:76-100 | Without a server stamp the deadline is conservative exactly when the local wall clock is not behind the server or a whole minute of the lease is left. |
| LeaseSupervisor.RetriesSoon | apps/agent-runtime/src/lease-supervisor.ts:157-173 | A failed renewal is retried after 0.8 to 4.8 seconds and not past the safe time. |
| LeaseSupervisor.BreakingKeepsLease | apps/agent-runtime/src/lease-supervisor.ts:146-173 | A receiver that throws leaves deadline, safe time and lease as a renewal without it would, and the next renewal comes within 1.2 seconds and not past the safe time. |
| LeaseSupervisor.LeaseSupervisor.ConfirmLease | apps/agent-runtime/src/lease-supervisor.ts:76-100 | Sets safe time and deadline, or loses the lease. |
| LeaseSupervisor.LeaseSupervisor.ScheduleRenewal | apps/agent-runtime/src/lease-supervisor.ts:102-109 | Schedules the next renewal, not past the safe time. |
| LeaseSupervisor.LeaseSupervisor.LoseLease | apps/agent-runtime/src/lease-supervisor.ts:111-118 | Aborts the execution once and stops. |
| LeaseSupervisor.LeaseSupervisor.StopNow | apps/agent-runtime/src/lease-supervisor.ts:65-74 | Stops and clears both timers. |
| LeaseSupervisor.LeaseSupervisor.OnTimer | apps/agent-runtime/src/lease-supervisor.ts:120-132 | Begins a renewal unless the safe time is over. |
| LeaseSupervisor.LeaseSupervisor.OnResponse | apps/agent-runtime/src/lease-supervisor.ts:145-156 | A cancellation loses the lease; a renewal confirms it and schedules the next. |
| LeaseSupervisor.LeaseSupervisor.OnBrokenResponse | apps/agent-runtime/src/lease-supervisor.ts:146-173 | A renewal whose receiver throws confirms the lease and then counts as a failure: lost if terminal, retried otherwise. |
| LeaseSupervisor.LeaseSupervisor.OnFailure | apps/agent-runtime/src/lease-supervisor.ts:157-173 | A terminal failure loses the lease, any other is retried with growing delay. |
| LeaseSupervisor.LeaseSupervisor.OnExpiry | apps/agent-runtime/src/lease-supervisor.ts:95-99 | The deadline loses the lease, which aborts the execution. |
| ActionFeedback.CompleteExactlyWhen | apps/browser-runtime/src/action-feedback.ts:69-144 | A snapshot claims complete coverage exactly when one to eight requests were ever made on the page since the action, each with its full response, none left the log, and the report fits; it then lists exactly those. |
| ActionFeedback.CompleteOverAnyRun | apps/browser-runtime/src/action-feedback.ts:39-144 | The same from an empty tracker over any run. |
| ActionFeedback.RunIsValid | apps/browser-runtime/src/action-feedback.ts:39-67 | The log is always the latest 200 of all requests, numbered without gaps. |
| ActionFeedback.ReportsLatest | apps/browser-runtime/src/action-feedback.ts:69-144 | There is a report for the page of the last action only; it lists the latest of the logged requests, at most eight and fewer only to fit, and says exactly when one of those is pending. |
| ActionFeedback.ActionIsLastBegun | apps/browser-runtime/src/action-feedback.ts:39-52 | The action reported on is the last that began, with the requests made before it, and completed exactly if that was said of it since. |
| ActionFeedback.ResponseReachesRequest | apps/browser-runtime/src/action-feedback.ts:54-67 | A response reaches the entry of the latest request made with its object and stays there. |
| ActionFeedback.ActionFeedbackTracker.OnRequest | apps/browser-runtime/src/action-feedback.ts:54-59 | A request is numbered and logged; the oldest goes beyond 200. |
| ActionFeedback.ActionFeedbackTracker.OnResponse | apps/browser-runtime/src/action-feedback.ts:61-67 | A response reaches its request, if that is still known. |
| ActionFeedback.ActionFeedbackTracker.TakeSnapshot | apps/browser-runtime/src/action-feedback.ts:69-144 | The report with its flags, shortened until it fits. |
| ActionFeedback.ActionFeedbackTracker.Begin | apps/browser-runtime/src/action-feedback.ts:39-48 | An action starts a new window after the requests so far. |
| ToolCorrection.BuildCorrection | apps/agent-runtime/src/tool-correction.ts:48-93 | For any texts the correction fits 2048 bytes, keeps code, criterion and group, and drops only what it has to, the least useful first. |
| ToolCorrection.CorrectionSays | apps/agent-runtime/src/tool-correction.ts:8-30 | What a reader of the correction's JSON finds under each name, and that there is nothing else. |
| ToolCorrection.DraftIsVerbatim | apps/agent-runtime/src/tool-correction.ts:48-79 | Where no text is too long the correction says what it was given, but for issues beyond the third and suggestions beyond the second that names a command. |
| ToolCorrection.BarestFits | apps/agent-runtime/src/tool-correction.ts:80-91 | However characters are escaped, a correction that cannot be shortened further fits. |
| ToolCorrection.FittedIsShortened | apps/agent-runtime/src/tool-correction.ts:80-91 | Parts go from their ends and in order of use; the message is cut only when all else is gone. |
| ToolCorrection.BoundedText | apps/agent-runtime/src/tool-correction.ts:239-241 | A text within the limit is unchanged, a longer one ends in an ellipsis within the limit. |

## Left out

- ExecutionJournal.CloseoutConserves: supposes that a stored write that concerns a record also concerns the last record under its reference; references are inputs here, while the program hashes resource, type, id and account, which fixes what concerns a record up to account aliases and the key of its creation.
- ExecutionJournal.RunSettles: supposes distinct references at the end of the run; `RunProves` says what holds without.
- ExecutionJournal.ObserveSettles: the part about every record supposes distinct references, which the program does not guarantee; so do `UpdateSettles` and `ObserveOutput`.
- ExecutionJournal.ExecutionJournal.ObserveOutput: the classification of requests, the search for created and renamed records, creation absences, account aliases, caps on evidence lists and the matching of UI rows are inputs; a malformed URL that aborts an observation midway is not modelled.
- ExecutionJournal.ExecutionJournal.UpdateProgress: which record a change addresses is an input, as is whether its identity, account, baseline, phase and review are in order; initial states are compared as values, not as texts.
- ExecutionJournal.ExecutionJournal.BlockCleanup: notes, phases and the cleanup review are not modelled; they do not affect the notice.
- ObservationPaging.TextPagesTile: supposes that the text does not end in a lone high surrogate, where the chain does not end.
- ReadProgress.SameNormalisedContentSameLines: the normalising expressions are arbitrary erasures that delete no line end; hashes of contents are taken as the contents.
- BrowserObservations.BrowserObservations.Capture: entries are values in insertion order, with their save order as id; focused pages, projected views, visual observations and recovery envelopes are left out.
- BrowserObservations.BrowserObservations.Read: the next unread cursor named beside a page is left out here; it is that of `ReadProgress.NextUnreadCursor`, which supposes a text that can be read to its end.
- SessionPermits.SessionPermits.AcceptPermit: parsing of dates and tokens happens before; a token is a decimal text with its number.
- ClosureJournal.SessionClosureJournal.DurableWrite: file names, permissions and synchronisation are one atomic step; journals that fail to parse and the outbox of results are left out.
- JsonSchema.WeakerAcceptsMore: references, conditional and dependent keywords are not modelled, as the canonical schemas do not use them; assertions on single values are an arbitrary function.
- ModelToolSchema.OpenAiFunctionSchema: the order of keys in the result is not modelled, and the translation from the parser's schema is its input.
- OperationSummary.OmissionMarkedExactlyWhen: an omission count given as text is not counted as a marker, which only makes the statement stronger; values that JSON cannot write are left out.
- ModelContext.ModelContext.BuildRequest: the text size of a request is an arbitrary function of what it shows, at least two bytes; the unbounded legacy mode, image contents, metrics and the memory of failures are left out.
- ObservationBudget.KeepsLongestPrefix: regions come in the order of their nodes, as captures push them; sizes are those measured by the search, before locations are rewritten; the final text is shorter, but rewritten locations may have more digits.
- DomObservation.DocumentState.Snapshot: the walk, labels and visibility are inputs; the cap of 1000 on reported modified nodes and the reference lines of regions are left out.
- DomObservation.ProvenMeansVouched: proofs withdrawn because of an unknown action target are part of the steps but not of this statement.
- MutationLog.LostExactlyWhen: the checks of single nodes against the live document are left out.
- SpecCheckCatalog.SpecCheckCatalog.DefineChecks: messages and field paths of issues are left out; an item is parsed, and its criterion judged, before.
- SpecExpansion.ExpansionMeaning: everything of a case but its checks and account bindings is left out, as are the schema checks of the expanded specification.
- LeaseSupervisor.RunningMeansUnexpired: a timer fires at some time after it is due; diagnostics and the abort signal of a request are left out.
- ActionFeedback.ActionFeedbackTracker.TakeSnapshot: the contents of summaries are left out; the size of a report is an arbitrary function of it.
- ToolCorrection.BuildCorrection: which suggestions name commands is a parameter, and issue texts written by schema errors are inputs.
- HTTP, WebSocket, browser automation, the user interface, the control plane's services, prompts and redaction by expressions: not modelled.
- Bound evidence, criterion evidence and data preconditions: their deciding predicates are in files that are not part of this model.
