# A verified model of the Skywell ledger core

The project models, in Dafny, the parts of the Skywell server (a ledger server derived from
Ripple) whose behaviour is decided by intricate shared state, and proves what the rest of the
server relies on.

**Overlay, directories, trust lines.** `Overlay.dfy` is `LedgerEntrySet`: a map from index to a
shared, mutable ledger-entry object with a recorded action and a checkpoint number, over a base
ledger. The objects live on the heap, so sharing between an overlay and its duplicate is part
of the model. `Directory.dfy` and `DirectoryOps.dfy` are the paged directories kept in it;
`TrustLines.dfy` and `TrustOps.dfy` the trust lines, their two directory entries, their reserves
and the credits over them; `Reserves.dfy` what the settings of a line decide and what failures leave; `Deferred.dfy` the credits withheld from spending; `OrderBook.dfy`
walking the overlay by index and the offers of a book. `EmptyPages.dfy` is a run that leaves a
directory without entries two empty pages, `FullDirectory.dfy` a send that is lost in a full one.

**Ledger hashes.** `SkipList.dfy` is the hash skip list carried by each ledger and the lookups
in it; `Publish.dfy` the validated and published ledgers of `LedgerMaster`.

**Consensus.** `Dispute.dfy` is one disputed transaction and the avalanche vote,
`Consensus.dfy` a round with its peers, sets and disputes, `Rounds.dfy` what holds along its runs, `CloseTime.dfy` the choice of the
close time, `Quorum.dfy` the 80 percent rule seen from two nodes.

Most operations come in two layers. A function gives the new state as a value
(`Directory.DirAdded`, `TrustLines.Credited`, `Dispute.Voted`), and lemmas prove what it means
against an independent notion: a plain list, a plain map, following parent hashes, set
difference, what two accounts owe each other. A method over objects and fields, with the
source's branches and loops, is proved to reach exactly that state.

## What is assumed

- Index hashes do not collide: a key is a value of the datatype `Key`. The index of a trust line
  does not depend on the order of its accounts, and page 0 of a directory is its root.
- For walking by index, `rank` numbers the keys without collision, and a book's range of numbers
  holds the roots of that book's directories and nothing else (`BookOk`). The number `end`
  itself is unused: the ranged search includes it, while its caller asserts a strict bound.
- Amounts are integers, counters other than the capped owner count do not overflow, and ledger
  sequence numbers stay below 2^32 where 32-bit rounding is modelled.
- Ledger hashes are non-zero, and a ledger fetched under the hash of a ledger of the chain is
  that ledger (`Genuine`). The first ledger of a chain carries no record; its child is the first
  that ran `updateSkipList`.
- A transaction set is identified with its hash.
- The clock, the network and the stores are parameters: elapsed percent, which proposals are
  stale, whether a set or a ledger could be fetched, the number of validations, the transfer fee.

## Where the code does less than its comments say

- Duplicating an overlay isolates the original from the duplicate only. A change made in place
  through the original reaches the duplicate while it still refers to that object
  (`StoreThroughOriginal`, `LeakAfterDuplicate`).
- A change in place that is not reported is seen by readers of the overlay, and is neither written
  back nor listed in the metadata (`TxnWrite`, `CalcRawMeta`; `LostWithoutReport` is the input).
- `entryCreate` without a lookup records an entry the base has as created, and `entryModify` of an
  unrecorded entry the base lacks records it as modified; in exactly these cases the record stops
  matching the base.
- `dirIsEmpty` can deny that a directory without entries is empty, exactly when an emptied root
  is left linked to an emptied last page (`DirIsEmptyExactly`; `EmptyPagesSurvive` is the run).
- The default-flag test that compares a masked flag with 1 never holds (`FlagTestFails`), so a line
  that a credit creates for an account with the default flag lacks the no-ripple flag
  (`CreditSticks`). The clearing rule then never applies to it: in every run the line keeps its
  reserve and is never deleted (`StuckForever`).
- The direct branch of `skywellSend` reports success whatever the credit returned. It moves the
  amount exactly when the amount is zero, there is a line, or both directories have room for one
  (`DirectSendExactly`; `SendIsLost` is the state in which a send is lost). A line that could not be
  created stays behind blank, listed at most in the low account's directory (`FailedCreateLeaves`),
  and the lost send keeps it.
- At the largest owner count a new line is not counted, and at count zero a released reserve is not
  counted down (`Drift`); below the cap neither happens (`TrustRunCounts`).
- `trustCreate` notes its balance as sent from source to destination even when the source is the
  account being set, whose balance rises: the note is right exactly when the destination is set or
  the balance is zero (`CreateNotesRight`). Over any run the balance reported in a deferral scope is
  off by what was received less what was noted as received (`ReportedBalance`); for one `trustCreate`
  that sets its source the new balance is spendable at once (`CreateReported`).
- The two early returns of `updateVote` agree with the threshold rule exactly when we propose or
  the dispute has a voter or we vote no (`ShortcutsAgree`).
- A comparison stops at 16384 differences. Disputes are complete if there are no more, and incomplete
  if more than that were undisputed (`CreateDisputes`).
- A set fetched while a proposal is handled is counted for that peer only. A peer that already takes
  the set is not counted, then or when the set arrives: the votes along a run are those of the
  held sets if and only if no proposal does this (`RunCounts`; `VoteIsMissed` is the run).
- Switching the last closed ledger drops disputes but not the record of compared sets
  (`SwitchLcl` says exactly when completeness survives).
- After we bowed out, votes are reversed while the position stays, so the ignored results of
  `addItem` and `delItem` can be failures; they are successes exactly when the reversed votes were in
  step with our set (`UpdateVotes`, `UpdateOurPositions`; `FailsAfterBowOut` is the run).
- `takeInitialPosition` follows a null pointer exactly when some peer takes a position recorded as
  invalid, other than our own (`TakeInitialPosition`; `InvalidPositionCrashes` is the input). The
  record is made only through the interface of the class: in this repository the store reports a
  set only once it was acquired (src/transaction/tx/TransactionAcquire.cpp:59-75).
- `LedgerMaster::getLedgerHash` takes a remainder instead of rounding up; its second lookup never
  helps (`RemainderLookupExactly`).

## Model

| member | source | states |
|---|---|---|
| Overlay.LedgerEntrySet.GetEntry | src/ledger/LedgerEntrySet.cpp:81-101 | An entry from an older checkpoint is cloned before it is handed out; the view, the action and every other slot stay as they were. |
| Overlay.LedgerEntrySet.EntryCache | src/ledger/LedgerEntrySet.cpp:112-136 | Returns an object of the overlay's own holding what the view has at the index, nothing exactly when the view lacks it; reading changes no view. |
| Overlay.LedgerEntrySet.EntryModify | src/ledger/LedgerEntrySet.cpp:203-237 | Throws exactly on a deleted entry; otherwise the view has the object's current value, created entries stay created, and the change counts as reported; the record stays right exactly when the entry was recorded or the base has it. |
| Overlay.LedgerEntrySet.EntryCreate | src/ledger/LedgerEntrySet.cpp:164-201 | Throws exactly when the index is recorded and not deleted; otherwise the view has the new entry, as modified if it was deleted before; the record stays right exactly when the index was recorded or is missing from the base. |
| Overlay.LedgerEntrySet.EntryDelete | src/ledger/LedgerEntrySet.cpp:239-276 | The view loses the index; an entry created here is forgotten. |
| Overlay.LedgerEntrySet.Duplicate | src/ledger/LedgerEntrySet.cpp:63-66 | The copy has the same slots, shares every object, starts one checkpoint later and owns none of the objects. |
| Overlay.LedgerEntrySet.SwapWith | src/ledger/LedgerEntrySet.cpp:68-77 | Two overlays exchange base, slots, checkpoint number and view. |
| Overlay.LedgerEntrySet.PerformAll | src/ledger/LedgerEntrySet.cpp:81-276 | Any run of reads, in-place changes reported or not, reports, creations without lookup and deletions changes only owned or new objects; if only missing entries are created it refines the same run on a plain map and created entries stay exactly those missing from the base; only keys with a change still unreported can be off the base. |
| Overlay.RunOnDuplicate | src/ledger/LedgerEntrySet.cpp:63-66 | Checkpoint isolation: any such run on a duplicate changes no existing overlay and no existing entry object (empty frame), and the duplicate's view is the run applied to the original's when only missing entries are created. |
| Overlay.StoreThroughOriginal | src/ledger/LedgerEntrySet.cpp:81-101 | A change in place through the original shows in a duplicate exactly when the duplicate still refers to that object and has not deleted it. |
| Overlay.LeakAfterDuplicate | src/ledger/LedgerEntrySet.h:337-342 | The concrete case: a change in place right after duplicating is seen by the duplicate. |
| Overlay.TxnWrite | src/transaction/tx/TransactionEngine.cpp:34-81 | No write-back of a recorded action fails; the written ledger is the view with unreported changes undone, so it is the view if and only if every in-place change was reported. |
| Overlay.RunAndWrite | src/transaction/tx/TransactionEngine.cpp:34-81 | A run that creates only missing entries and leaves no change unreported, written back, is the run applied to the base ledger. |
| Overlay.LostWithoutReport | src/transaction/tx/TransactionEngine.cpp:34-81 | For every entry and other value: an unreported change shows in the view and is neither written nor listed. |
| Overlay.CalcRawMeta | src/ledger/LedgerEntrySet.cpp:465-597 | No node-presence assertion fails; the affected nodes with their kinds are the difference between the base and what is written back, and the difference to the view if and only if every in-place change was reported. |
| Directory.LocatedExactly | src/ledger/LedgerEntrySet.cpp:749-809 | A deletion finds the entry exactly when the named page lists it, or a soft deletion reaches such a page by page 20; it takes the first such page. |
| Directory.DirAddRefinesAppend | src/ledger/LedgerEntrySet.cpp:657-746 | Adding keeps the pages one chain, appends to the list, puts the entry on the reported page only, changes nothing on failure and nothing outside the directory. |
| Directory.DirDeleteRefinesRemove | src/ledger/LedgerEntrySet.cpp:749-942 | A successful deletion keeps the chain, removes one occurrence from the list (order kept when stable) and the first one from the page it was found on, where the rest moves up when stable and the last entry takes its place otherwise; a failed one changes nothing. |
| Directory.DirAddPages | src/ledger/LedgerEntrySet.cpp:657-746 | The entry goes on the last page, on a new page after it exactly when that holds 32, and the addition fails exactly when that page has the largest number. |
| Directory.DirDeletePages | src/ledger/LedgerEntrySet.cpp:823-938 | After a deletion no page is left if nothing is listed and the root was the only page, or one of two that need not be kept; otherwise every page stays but one emptied between two others. |
| Directory.LeaveTidy | src/ledger/LedgerEntrySet.cpp:823-938 | A deletion that takes the last entry leaves no page if and only if there was one page, or there were two and the root need not be kept. |
| Directory.SmallRunsTidy | src/ledger/LedgerEntrySet.cpp:636-942 | After every run in which there are never three pages and no deletion keeps the root, dirIsEmpty holds if and only if nothing is listed. |
| Directory.UnlinkKeepsChain | src/ledger/LedgerEntrySet.cpp:877-913 | Unlinking an emptied interior page leaves one doubly linked chain with increasing page numbers and no live page off it. |
| Directory.PageRunConserves | src/ledger/LedgerEntrySet.cpp:657-942 | Every run of additions and deletions with any page numbers keeps the chain, touches no other entry, and lists each key as often as successful additions exceed successful deletions. |
| Directory.RunsKeepHints | src/ledger/LedgerEntrySet.cpp:657-942 | In every run that lists entries once and deletes them with the page number reported when they were added, each entry is listed once on its recorded page and no hard deletion returns tefBAD_LEDGER. |
| Directory.ChainUnique | src/ledger/LedgerEntrySet.cpp:657-942 | The links of a state determine the chain of pages. |
| Directory.DirFrame | src/ledger/LedgerEntrySet.cpp:657-942 | A directory depends on its own pages only. |
| Directory.DirIsEmptyExactly | src/ledger/LedgerEntrySet.cpp:636-650 | Reported empty means no pages and no entries; an empty list is denied exactly for an emptied root linked to an emptied last page. |
| EmptyPages.EmptyPagesSurvive | src/ledger/LedgerEntrySet.cpp:636-650 | From no pages at all, 65 additions of different keys and the deletion of each from its page reach that case. |
| DirectoryOps.DirAdd | src/ledger/LedgerEntrySet.cpp:657-746 | The code on the overlay reports the result and page and reaches the state that the append theorem is about; creating the page never throws. |
| DirectoryOps.DirDelete | src/ledger/LedgerEntrySet.cpp:749-942 | The code on the overlay, soft search and page dropping included, succeeds exactly when the entry is located and reaches the state that the removal theorem is about. |
| DirectoryOps.DirNext | src/ledger/LedgerEntrySet.cpp:962-1011 | Yields the head of what is left to visit and leaves its tail, moving over exhausted pages; reports the end exactly when nothing is left. |
| DirectoryOps.Traverse | src/ledger/LedgerEntrySet.cpp:946-1011 | dirFirst and repeated dirNext yield exactly the list, and end. |
| DirectoryOps.DirCount | src/ledger/LedgerEntrySet.cpp:607-634 | The count is the length of the list and a broken link is never met. |
| TrustOps.IncrementOwnerCount | src/ledger/LedgerEntrySet.cpp:1050-1072 | Counts up unless the count is at its cap. |
| TrustOps.DecrementOwnerCount | src/ledger/LedgerEntrySet.cpp:1074-1096 | Counts down unless the count is zero. |
| TrustOps.TrustCreate | src/ledger/LedgerEntrySet.cpp:1448-1558 | Succeeds exactly when both directories take the entry and reaches the specified state: line, both page numbers, reserve, owner count, or what was entered before a directory was full; on success the balance is noted from source to destination. |
| TrustOps.TrustDelete | src/ledger/LedgerEntrySet.cpp:1560-1599 | Deletes from the low then the high directory, softly where no page was stored; the second is left alone when the first fails. |
| TrustOps.CheckState | src/ledger/LedgerEntrySet.cpp:1957-2004 | Releases the sender's reserve and owner count exactly under the clearing rule and says whether the line can go. |
| TrustOps.SkywellCredit | src/ledger/LedgerEntrySet.cpp:1642-1779 | Create, adjust and delete cases, with pages stored or not, reach the state and result of the credit specification; the credit is noted once, unless a line could not be created. |
| TrustOps.IssueIou | src/ledger/LedgerEntrySet.cpp:2068-2143 | The hand-specialised copy reaches the state, result and note of a credit from the issuer to the account. |
| TrustOps.RedeemIou | src/ledger/LedgerEntrySet.cpp:2145-2210 | tefINTERNAL, no change and no note without a line; otherwise the state, result and note of a credit from the account to the issuer. |
| TrustOps.SkywellSend | src/ledger/LedgerEntrySet.cpp:1811-1853 | Direct sends always report success; third-party sends are two credits through the issuer, the second of the amount plus the fee, and stop after a failed first; both are noted. Only intact owner directories are asked for. |
| TrustLines.CreditMoves | src/ledger/LedgerEntrySet.cpp:1642-1779 | Every credit with a line to adjust or one created, whether or not lines are listed right and a deletion succeeds, changes what any two accounts owe each other by exactly the amount between sender and receiver in that currency and by nothing elsewhere. |
| TrustLines.CreditKeeps | src/ledger/LedgerEntrySet.cpp:1642-1779 | A credit on a state with every line well formed and listed right succeeds or reports a full directory, keeps that, and changes what owner counts cover besides reserved lines by exactly the drift at the ends of the count's range. |
| TrustLines.NoDrift | src/ledger/LedgerEntrySet.cpp:1050-1096 | There is no drift while counts cover the reserved lines and no line is created at the cap: the branch that finds a count already zero is not reached. |
| TrustLines.AdjustedOwned | src/ledger/LedgerEntrySet.cpp:1722-1755 | Releasing a reserve moves the owner count with the reserve flag, unless the count is already zero; it is not if it covers the reserved lines. |
| TrustLines.TrustCreatedOwned | src/ledger/LedgerEntrySet.cpp:1448-1558 | Creating a line keeps what owner counts cover besides lines, except, exactly, when the count is at its cap. |
| TrustLines.TrustCreatedOk | src/ledger/LedgerEntrySet.cpp:1448-1558 | Creating a line, at the cap or not, keeps every line well formed and listed right. |
| TrustLines.TrustDeletedOk | src/ledger/LedgerEntrySet.cpp:1560-1599 | Deleting a line without reserves succeeds, keeps every line listed right and every count, and touches nothing but the line and the two directories. |
| TrustLines.CreditKeepsLines | src/ledger/LedgerEntrySet.cpp:1642-1779 | Such a credit changes no line but its own, in the create, adjust and delete cases. |
| TrustLines.CreditKeepsDirs | src/ledger/LedgerEntrySet.cpp:1642-1779 | A credit, successful or not, keeps every owner directory one intact chain. |
| TrustLines.CreditFailsExactly | src/ledger/LedgerEntrySet.cpp:1642-1779 | With lines listed right, a credit fails if and only if there is no line and one of the two owner directories is full. |
| TrustLines.DirectSendExactly | src/ledger/LedgerEntrySet.cpp:1820-1826 | The credit behind a direct send moves its amount if and only if the amount is zero, there is a line, or both directories have room for one. |
| FullDirectory.NoRoom | src/ledger/LedgerEntrySet.cpp:1448-1510 | A state with everything in order and the last possible page of the receiver's directory full, in which the credit fails. |
| FullDirectory.SendIsLost | src/ledger/LedgerEntrySet.cpp:1820-1826 | From it a direct send, for every amount, reports success and the amount, moves and notes nothing, and leaves a line that the receiver's directory does not list. |
| Reserves.FlagTestFails | src/ledger/LedgerEntrySet.cpp:1682-1682 | Masking any flags with the default flag never gives 1. |
| Reserves.CreditSticks | src/ledger/LedgerEntrySet.cpp:1642-1711 | A line created by a credit for an account with the default flag has a reserve and lacks the no-ripple flag. |
| Reserves.StuckForever | src/ledger/LedgerEntrySet.cpp:1722-1755 | In every run of the four operations such a line is never deleted and keeps its reserve. |
| Reserves.ReleasedExactly | src/ledger/LedgerEntrySet.cpp:1722-1770 | Over a credit the sender's reserve goes, with one unit of its owner count, if and only if its position went from positive to zero or below and its limit, qualities, freeze and no-ripple flag are at the defaults; the line goes if and only if the position is then zero and the receiver has no reserve; every other setting of both sides stays. |
| Reserves.HeldForever | src/ledger/LedgerEntrySet.cpp:1722-1755 | In every run of the four operations a side with a reserve and a limit, a quality, a freeze or a no-ripple flag unlike its account's default keeps the reserve and all its settings, and its line is never deleted. |
| Reserves.CreatedAs | src/ledger/LedgerEntrySet.cpp:1490-1556 | The account being set reads back its limit, qualities, flags and balance, with a reserve; the other side is blank. |
| Reserves.CreditMakes | src/ledger/LedgerEntrySet.cpp:1666-1700 | A line made by a credit has no limit, qualities or flags but the receiver's reserve, and the receiver holds the amount. |
| Reserves.RedeemMakesNone | src/ledger/LedgerEntrySet.cpp:2145-2210 | redeem_iou never makes a line and reports tefINTERNAL if and only if there is none. |
| Reserves.FailedCreateLeaves | src/ledger/LedgerEntrySet.cpp:1448-1490 | A failed trustCreate leaves a blank line, listed in the low account's directory exactly when that has room and not in the high one's, and nothing else changed. |
| Reserves.DeletesExactly | src/ledger/LedgerEntrySet.cpp:1560-1599 | trustDelete succeeds if and only if each directory lists the line on its stored page, or on a page up to 20 if none is stored; the line goes in any case, the low entry if found, the high one if both are. |
| Reserves.OwnerDirEmpties | src/ledger/LedgerEntrySet.cpp:1448-2210 | In every run an owner directory that never has three pages is reported empty if and only if it lists nothing. |
| TrustLines.DeletedOnlyWhenSettled | src/ledger/LedgerEntrySet.cpp:1642-1779 | Any line that a credit removes is its own, and as last written it had balance zero and no reserve on either side. |
| TrustLines.RunKeepsLines | src/ledger/LedgerEntrySet.cpp:1448-2210 | In every run of the four operations, from any state whose line keys hold lines, every line removed had balance zero and no reserves and each step leaves the other lines alone. |
| TrustLines.TrustRunKeeps | src/ledger/LedgerEntrySet.cpp:1448-2210 | In every run of trustCreate, skywellCredit, issue_iou and redeem_iou each live line is listed once on both sides at its stored page, every line removed had balance zero and no reserves, other lines stay, nothing returns tefBAD_LEDGER, and counts move with the reserved lines but for the drift. |
| TrustLines.TrustRunCounts | src/ledger/LedgerEntrySet.cpp:1050-1096 | In every run in which no step creates a line at the cap there is no drift, so counts keep covering exactly the reserved lines besides what else is owned. |
| TrustLines.CreditObligations | src/ledger/LedgerEntrySet.cpp:1642-1779 | A credit from or to the issuer changes the issuer's obligations to any group of holders by exactly the amount, or not at all when the other party is outside the group. |
| TrustLines.SendMoves | src/ledger/LedgerEntrySet.cpp:1828-1850 | A successful third-party send gives the receiver the amount, costs the sender amount and fee, and moves no other holder's position. |
| TrustLines.SendBurnsFee | src/ledger/LedgerEntrySet.cpp:1828-1850 | It lowers the issuer's obligations to its holders by exactly the fee. |
| Deferred.DeferredCredits.Credit | src/ledger/DeferredCredits.cpp:66-104 | The map gains the amount in the direction of the transfer, for either account order. |
| Deferred.DeductionIsReceived | src/ledger/DeferredCredits.cpp:66-142 | Over any run of credits the reported balance falls by exactly what the other party sent. |
| Deferred.CreateNotesRight | src/ledger/LedgerEntrySet.cpp:1554-1554 | What trustCreate notes is what moves between any two accounts if and only if the destination is the account being set or the balance is zero. |
| Deferred.CreateReported | src/ledger/LedgerEntrySet.cpp:1554-1554 | After one trustCreate the account set is reported nothing of the new balance if the destination is set and all of it if the source is; the other account is then charged twice. |
| Deferred.RunMoves | src/ledger/LedgerEntrySet.cpp:1448-2210 | Over any run of the four operations, from any state whose line keys hold lines, a position changes by what was received minus what was sent in the successful ones. |
| Deferred.ReportedBalance | src/ledger/LedgerEntrySet.cpp:1620-1636 | Inside one deferral scope, over every run of the four operations, the reported balance is the starting one minus what was sent, plus what was received, minus what was noted as received. |
| Deferred.NothingReceivedIsSpendable | src/ledger/LedgerEntrySet.cpp:1620-1636 | If every trustCreate of the run sets its destination or has balance zero, the reported balance is the starting one minus what was sent, whatever was received. |
| OrderBook.GetNextLedgerIndex | src/ledger/LedgerEntrySet.cpp:1013-1036 | The least live key above the argument in base and overlay together, or none. |
| OrderBook.GetNextInRange | src/ledger/LedgerEntrySet.cpp:1038-1048 | The same among keys up to and including the end. |
| OrderBook.BookIterator.NextDirectory | src/ledger/OrderBookIterator.cpp:37-66 | Moves to the least live directory above the old one, strictly inside the book, and fails exactly when none is live above; the entry iterator stays where it is. |
| OrderBook.BookIterator.Resync | src/ledger/OrderBookIterator.cpp:82-90 | After changes, lands on the least live directory at or above the old one (from the start of the book if there was none), on the old one itself if it is still live, and fails exactly when none is. |
| OrderBook.BookIterator.NextEntry | src/ledger/DirectoryEntryIterator.cpp:49-91 | Takes the head of what is left; at the end of the directory nothing is lost. |
| OrderBook.BookIterator.NextOffer | src/ledger/OrderBookIterator.cpp:189-217 | Returns the head of what is left of the book, over directories, and fails exactly when nothing is left; terminates. |
| OrderBook.BookIterator.FirstOffer | src/ledger/OrderBookIterator.cpp:169-185 | Starts over: the first offer of the book, the rest left to visit; with no live directory the entry iterator is left where it was. |
| OrderBook.BookIterator.VisitAll | src/ledger/OrderBookIterator.cpp:169-217 | firstOffer and repeated nextOffer visit every offer of the book once, directories ascending, each in its own order. |
| SkipList.Ledger.UpdateSkipList | src/ledger/Ledger.cpp:1644-1700 | The window slides by the parent hash; the parent's hash joins its group of every-256th hashes exactly when its number is a multiple of 256; the genesis ledger changes nothing. |
| SkipList.CloseNext | src/ledger/Ledger.cpp:1644-1700 | A ledger built on a parent and updated follows it. |
| SkipList.RecentAt | src/ledger/Ledger.cpp:1675-1699 | On every chain the window holds exactly the last 256 recorded ancestors in order. |
| SkipList.GroupsAt | src/ledger/Ledger.cpp:1651-1673 | On every chain each group holds exactly the recorded multiples of 256 that fall in it, in order. |
| SkipList.ListsBounded | src/ledger/Ledger.cpp:1644-1700 | No list ever exceeds 256 entries. |
| SkipList.LookupExact | src/ledger/Ledger.cpp:1459-1539 | The lookup returns the true ancestor's hash exactly for the last 256 recorded ancestors and the recorded multiples of 256, the parent hash just below the first ledger of the chain, and zero for every other index. |
| SkipList.TwoHopsExactly | src/ledger/LedgerMaster.cpp:1490-1521 | On chains of any length walkHashBySeq returns the true hash of a recorded ancestor if it is among the last 256, a multiple of 256, or the flag ledger above it can be fetched, and zero in every other case; no other ledger is needed. |
| SkipList.RemainderLookupExactly | src/ledger/LedgerMaster.cpp:1277-1307 | The lookup by remainder finds exactly what the direct lookup finds. |
| Publish.LedgerMaster.CheckAccept | src/ledger/LedgerMaster.cpp:818-856 | The validated ledger advances exactly to a later ledger with enough validations; neither number decreases; the first validated ledger is also the published one. |
| Publish.LedgerMaster.SetFullLedger | src/ledger/LedgerMaster.cpp:701-746 | Validated moves to the ledger only if later, published only if there was none. |
| Publish.LedgerMaster.FindNewLedgersToPublish | src/ledger/LedgerMaster.cpp:1175-1260 | Outside the gap case ledgers numbered on from the published one; on a recorded chain they are its own, no hash is missing, and they are exactly those before the first that is neither at hand nor fetched as one of three; in the gap case the validated ledger alone. |
| Publish.LedgerMaster.Advance | src/ledger/LedgerMaster.cpp:1150-1163 | Publishing advances the published number ledger by ledger along the true chain, as far as ledgers are available, and never moves the validated one. |
| Publish.Advancing.Perform | src/ledger/LedgerMaster.cpp:1018-1163 | One step in full: what validations, an accepted ledger, a search along a chain and a publication do to the validated, published and pending ledgers. |
| Publish.Advancing.Run | src/ledger/LedgerMaster.cpp:1018-1163 | However validations, accepted ledgers, searches and single publications interleave, neither the validated nor the published number decreases, every ledger validated or accepted is behind the validated one, and the published stream has no repetition and no hole but jumps of more than 100. |
| Dispute.DisputedTx.SetVote | src/consensus/DisputedTx.cpp:29-70 | The vote map changes for this peer only and the counters stay its tallies. |
| Dispute.DisputedTx.UnVote | src/consensus/DisputedTx.cpp:73-86 | The peer's vote goes, the counters stay tallies. |
| Dispute.DisputedTx.UpdateVote | src/consensus/DisputedTx.cpp:88-149 | Our vote becomes the specified one and the result tells whether it changed. |
| Dispute.VotedTallies | src/consensus/DisputedTx.cpp:29-70 | Counters equal to the tallies of the votes stay equal to them when a peer votes. |
| Dispute.UnvotedTallies | src/consensus/DisputedTx.cpp:73-86 | The same when a vote is withdrawn. |
| Dispute.WeightRange | src/consensus/DisputedTx.cpp:105-105 | The weight is a percentage, rises with our own yes, is 100 when we and all voters say yes and 0 when nobody does. |
| Dispute.ShortcutsAgree | src/consensus/DisputedTx.cpp:93-127 | The early returns give what the threshold rule gives, if and only if we propose, or there is a voter, or we vote no. |
| Dispute.DecidesExactly | src/consensus/DisputedTx.cpp:105-127 | A proposing node says yes if and only if at least 51, 66, 71 or 96 percent of the nodes with itself do, by elapsed percent below 50, 85, 200 or beyond; any other node if and only if more peers say yes than no. |
| Dispute.AvalancheStable | src/consensus/DisputedTx.cpp:88-149 | With fixed peer votes and elapsed percent never decreasing, a proposing node changes its vote at most once from yes and twice from no, and never returns to yes. |
| Dispute.NoIsFinal | src/ledger/LedgerTiming.h:65-82 | Under the same conditions a no is final. |
| Consensus.Compare | src/common/shamap/impl/SHAMapDelta.cpp:115-214 | Reports only differences, all of them up to 16384. |
| Consensus.StartDispute | src/consensus/LedgerConsensus.cpp:1182-1216 | A peer has a vote on a new dispute if and only if it takes a position whose set we hold, and it votes as that set says; the counters are the tallies, and our vote is given. |
| Consensus.CreateDisputes | src/consensus/LedgerConsensus.cpp:1135-1228 | Existing disputes stay, new ones are differences only and start right; every difference is disputed afterwards if there are at most 16384, and not every one if more than 16384 were undisputed. |
| Consensus.AdjustCount | src/consensus/LedgerConsensus.cpp:1237-1247 | The peers of a position vote as its set says on every dispute; no other vote changes. |
| Consensus.UpdateVotes | src/consensus/LedgerConsensus.cpp:1486-1511 | Each vote is reconsidered, the new set follows exactly the reversed votes, and the item operations all succeed if and only if the reversed votes were in step with the set. |
| Consensus.UpdateVotesInStep | src/consensus/LedgerConsensus.cpp:1486-1511 | With votes in step, the new set has a disputed transaction exactly when we vote for it and agrees with the old set elsewhere, and no addItem or delItem fails. |
| Consensus.VotedPositionKeeps | src/consensus/LedgerConsensus.cpp:1486-1511 | Flipping votes keeps our votes equal to membership and every compared set within the disputes, by the triangle law of set difference. |
| Consensus.DropVotes | src/consensus/LedgerConsensus.cpp:1464-1484 | Removed peers lose their votes on every dispute; nothing else changes. |
| Consensus.LedgerConsensus.MapComplete | src/consensus/LedgerConsensus.cpp:340-427 | A set that arrives is compared with ours if we have a live position, the peers that take it vote as it says, and new disputes start with the votes of all sets held; a set already held or invalid changes no dispute. |
| Consensus.LedgerConsensus.PeerPosition | src/consensus/LedgerConsensus.cpp:816-881 | Accepted exactly from live peers with a higher proposal number; gives the exact new positions, votes, dead peers, sets and close-time counts; keeps the round's invariant. |
| Consensus.LedgerConsensus.TakeInitialPosition | src/consensus/LedgerConsensus.cpp:1363-1430 | Crashes if and only if some peer takes a position recorded as invalid, other than ours; otherwise every held peer position is compared, disputes are warranted by differences, and our votes are membership in the initial set. |
| Consensus.InvalidPositionCrashes | src/consensus/LedgerConsensus.cpp:1408-1426 | The input: a set found invalid, a peer that proposes it, the close of the ledger. |
| Consensus.LedgerConsensus.CountAgreement | src/consensus/LedgerConsensus.cpp:745-793 | Counts the peers that take our set and those that do not, and afterwards every held position other than ours has been compared; the round's invariant stays. |
| Consensus.LedgerConsensus.RemoveStale | src/consensus/LedgerConsensus.cpp:1464-1484 | Stale peers lose position and votes; the invariant stays. |
| Consensus.LedgerConsensus.UpdateOurPositions | src/consensus/LedgerConsensus.cpp:1450-1629 | Each vote is reconsidered on the votes left after removing stale peers; our set follows the votes and the proposal advances exactly when the set changes or a new proposal is due, and no item operation fails; after a bow-out the position stays and the item operations succeed if and only if the reversed votes were in step with our set; invariant kept. |
| Consensus.FailsAfterBowOut | src/consensus/LedgerConsensus.cpp:1486-1511 | The run: close, leave, a timer that takes our vote down, the peer comes round, a timer that takes it up; adding the transaction fails. |
| Consensus.LedgerConsensus.Run | src/consensus/LedgerConsensus.cpp:340-1629 | In every run of arrivals, proposals, bow-outs of peers and of ourselves, closing, timer events and switches of the last closed ledger, up to a crash, each event is handled as stated for one: counters are tallies, voters have positions, we hold our set, our vote is membership in it until we bow out. Without a switch, our set differs from compared sets on disputed transactions only, if no comparison met over 16384 differences or at most that many transactions are mentioned. |
| Consensus.LedgerConsensus.Handle | src/consensus/LedgerConsensus.cpp:340-1629 | One event in full: an arriving set is held, compared and counted; a proposal is accepted exactly from a live peer with a higher number and votes if its set is held; closing takes the initial position and compares every held one; the timer drops stale peers, reconsiders every vote, moves our set with the votes, advances the proposal exactly on a change or refresh, and compares every held position; a switch and leaving. A crash happens exactly at the first close with a peer position recorded as invalid; only a switch can lose completeness. |
| Rounds.DeadStay | src/consensus/LedgerConsensus.cpp:816-860 | Along every run a peer that bowed out stays dead and without a position until a switch. |
| Rounds.NumbersGrow | src/consensus/LedgerConsensus.cpp:816-881 | Along every run a peer that no event drops keeps its position or has one with a higher number. |
| Rounds.OursGrow | src/consensus/LedgerConsensus.cpp:1253-1629 | Along every run our position is kept or replaced under a higher number, and once bowed out it is kept. |
| Rounds.ProposedCounts | src/consensus/LedgerConsensus.cpp:795-881 | A proposal leaves the vote of a peer whose set is held uncounted if and only if it fetches its set and another peer, whose vote is missing or old, already takes that set. |
| Rounds.RunCounts | src/consensus/LedgerConsensus.cpp:340-1629 | Along every run each peer whose set is held has the vote its set says on every dispute, at all times, if and only if no proposal does that. |
| Rounds.VoteIsMissed | src/consensus/LedgerConsensus.cpp:795-881 | The run: after it the vote of a peer is missing although its set is held and has arrived. |
| Consensus.LedgerConsensus.SwitchLcl | src/consensus/LedgerConsensus.cpp:523-548 | Clears peers, disputes and dead peers but not the compared sets; with a live position, completeness holds afterwards if and only if nothing but our own set was compared; the invariant stays. |
| Consensus.LedgerConsensus.LeaveConsensus | src/consensus/LedgerConsensus.cpp:1253-1265 | If we propose and have a position it is bowed out, otherwise nothing changes; the invariant stays. |
| CloseTime.Tally | src/consensus/LedgerConsensus.cpp:1461-1484 | The counts are the multiplicities of the proposed times. |
| CloseTime.BestTime | src/consensus/LedgerConsensus.cpp:1557-1581 | The loop selects the latest time among those with the most votes if that reaches the threshold, else zero, and declares consensus exactly when that maximum reaches both thresholds. |
| CloseTime.ChooseCloseTime | src/consensus/LedgerConsensus.cpp:1513-1588 | In terms of the votes cast, ours included when proposing, n in all: the latest of the most voted times if x votes for it reach the percentage p, that is x >= 1 and 100 (x + 1) > n p + p / 2, else zero; agreed if that also holds with 75, or for one vote less with time zero; our own time when there are no peers. |
| CloseTime.PercentExactly | src/consensus/LedgerConsensus.cpp:1440-1444 | The computed number of votes is the least that reaches the percentage. |
| CloseTime.TwoAgreedTimes | src/consensus/LedgerConsensus.cpp:1440-1444 | Two times both reach the consensus threshold if and only if there are two participants who name one each. |
| Quorum.DecidedSupport | src/ledger/LedgerTiming.cpp:130-136 | A normal verdict means at least 81 percent of the participants, ourselves included, hold our set. |
| Quorum.VerdictExactly | src/ledger/LedgerTiming.cpp:99-150 | The verdict in full: waiting for two seconds, and two seconds beyond the last round while fewer than three quarters of its proposers take part; normal if and only if 81 percent with us agree; moved on if and only if 81 percent have finished and it is not normal. |
| Quorum.NoConflictingConsensus | src/ledger/LedgerTiming.cpp:99-150 | Two nodes with a normal verdict to which shared participants show the same position have the same set when their participants overlap in more than 19 percent of the sum of their numbers. |
| Quorum.BoundIsTight | src/ledger/LedgerTiming.cpp:130-136 | At exactly 19 percent, for every size, two nodes can decide differently. |

## Left out

- Overlay.LedgerEntrySet.EntryCache: the immutable-overlay flag and the form that takes a ready entry are not modelled.
- Overlay.LedgerEntrySet.Duplicate: the deferred credits and the metadata that the source copies along are not part of the overlay here.
- Overlay.LedgerEntrySet.SwapWith: the same deferred credits and metadata are not exchanged.
- Overlay.CalcRawMeta: which fields the metadata lists and the threading of transactions to owners are not modelled.
- DirectoryOps.DirAdd: the callback that describes a new page is not modelled; pages carry indexes and links only.
- TrustOps.SkywellCredit: on an existing line the changed line is reported modified before it is deleted, where the source only deletes it; the recorded slot and the view are the same.
- TrustOps.SkywellSend: the transfer fee is a parameter; rate lookup and rounded multiplication are not modelled.
- TrustLines.CreditKeeps: every line of the state stores its two pages; for lines without stored pages, `CreditMoves`, `CreditKeepsLines` and `CreditKeepsDirs` hold.
- TrustLines.TrustRunKeeps: every line of the starting state stores its two pages, as trustCreate makes them; lines without stored pages are handled by the operations (soft deletion), not by the run.
- Deferred.NothingReceivedIsSpendable: covers trust lines with freeze ignored; native-currency deferral and frozen balances are not modelled.
- OrderBook.BookIterator.FirstOffer: what a later nextOffer reads from an entry iterator left on a directory deleted in the meantime is not modelled.
- OrderBook.BookIterator.NextEntry: models an iterator built from a directory entry; `firstEntry` on an index always stops in the source.
- Consensus.LedgerConsensus.TakeInitialPosition: the fee and amendment votes added on flag ledgers are not modelled.
- Consensus.LedgerConsensus.CountAgreement: the source counts and compares in one loop, the model in two.
- Consensus.LedgerConsensus.UpdateOurPositions: whether a new proposal is due and the chosen close time are inputs (`CloseTime` models the choice), and close times are taken already rounded.
- Consensus.LedgerConsensus.Run: the report that our own set is invalid is ignored; the store, which was given the set, does not make it (src/transaction/tx/InboundTransactions.cpp:193-203).
- Publish.LedgerMaster.SetFullLedger: the completeness range set and the repair of mismatched history are not modelled.
- Publish.LedgerMaster.Advance: search and publications are one step; other steps in between are in `Publish.Advancing.Run`.
- Publish.Advancing.Run: a search is one step, although the source releases its lock during it.
- Applying the agreed transactions in passes, fee and amendment voting, acceptance of a ledger: they would need the transaction engine.
- getNextLedgerTimeResolution, roundCloseTime, getLedgerHashes, getValidatedRange, tryFill, visitAccountItems: they would add easy members.
- offerDelete, accountSend, accountFunds, relationCreate, signCreate, issue_trust_auto, accountFundsCheck: business rules over the operations modelled here.
- Networking, job queue, locks, databases, SHAMap, serialisation, signatures, JSON and logging.
