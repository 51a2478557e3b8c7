# A verified model of the Benzo backend

The Benzo backend indexes the events of two confidential-token contracts, pays payrolls from an encrypted treasury,
brings deposits across chains over CCTP, and lets auditors decrypt what their keys cover. This project models its six
stateful components in Dafny and proves what they are for: the index is the chain, a payroll pays once, a credited
deposit is in the ledger exactly once, every event has one auditor key, and the codecs lose nothing but what they say.

Check the whole project with `dafny verify dfyconfig.toml`.

## What is modelled

- **Indexer** (`IndexerChain`, `IndexerTable`, `IndexerScan`, `Indexer`, `IndexerBackfill`, `IndexerRuns`,
  `IndexerReorgs`, `IndexerSwitches`). A block hash is the chain prefix it names, so it fixes its ancestors.
  `Indexer.IndexerJob` is the job as it is written: windows, parent-hash checks, rewinds, upserts, backfills, several
  contracts over one table. `IndexerRuns` lets the chain be reorganised and the process crash between any two reads and
  writes, with backfills in between. `IndexerSwitches` takes away every bound on the reorganisations and backfills and
  says exactly which runs keep the index right.
- **Payroll** (`PayrollWorker`, `PayrollSafety`, `PayrollRuns`, `PayrollRoutes`, `PayrollOutcome`, `PayrollJob`,
  `PayrollIntake`, `Amounts`). The worker is a step machine with one step for every awaited write or call, two for
  every route that changes a run (its check and its write), the chain beside it, and crashes anywhere.
  `PayrollJob.PayrollJob` is `processPayrollItem` as it is written, over the tables it updates; every job is shown to
  be a path of the machine, and `PayrollOutcome` says what it makes of its item for every answer of the outside. The
  intake goes from CSV text to a draft run.
- **Onramp** (`OnrampService`, `OnrampPoller`, `OnrampSafety`, `OnrampMirror`, `OnrampJob`, `OnrampMessage`). The status
  table and its compare-and-set, the pollers as a step machine, any number of them on one intent, the poll
  loop as it is written, and the message and hook-data codecs digit by digit.
- **Auditor** (`AuditorKeys`, `AuditorPacket`, `AuditorCsv`). Rotations, key lookup, batched audit logging, the exported
  packet, and the CSV report with a reader for section 2 of RFC 4180.
- **Texts and numbers** (`Positional`, `Utf8`, `Metadata`, `Decimal`). Chunks in base 2^250, bytes in base 256,
  hexadecimal and decimal digits, UTF-8 as in section 3 of RFC 3629, and the envelope of an encrypted text.
- **Activity feed** (`Activity`). Keyset pages and the crawl that follows their cursors.

`Prelude` holds options, results and text cutting.

## Hypotheses

- A log key is unique on a chain and keeps its contract on every branch; the scan window is at least one block.
- A reorganisation reaches no deeper than the block a rewind of a stored cursor lands on. While a window is being read,
  a switch before its first read keeps the cursor's branch; one between the reading of its logs and of its head keeps
  the blocks up to its end; one after both only obeys the same depth bound for the window's own head and, until the
  block times are read, keeps the times of the blocks that hold rows. A backfill starts where `BackfillRight`
  says, for instance no later than the cursor's next block on an agreeing branch (`OverlappingBackfill`), and runs while
  no other job of the indexer does and the chain stays. `AlwaysCanonicalIff` needs neither the bounds on switches nor
  those on where a backfill starts.
- One payroll job of an organisation runs at a time, as the advisory lock ensures. The chain takes a transfer once, and
  only against the balance it was built on. An organisation has one treasury token.
  The machine counts in millionths; `WorkerPaysTotal` carries it over to the worker's decimals.
- CCTP attests one message for a nonce. The theorems of `OnrampSafety` about credits need one poller for an intent
  at a time; its status theorems and `OnrampMirror` do not.
- The rows of an auditor packet are read at once; the key table may be rotated between its two loads. Ciphers are
  functions; where a codec needs it, decrypting undoes encrypting for field elements.

## Findings

These hold of the code as it is, and each is a lemma.

- A chain switch below the cursor between the parent-hash check and the reading of the window leaves rows of the old
  branch under a cursor of the new one (`TornReadBreaksIndex`).
- A backfill that starts above the cursor's next block, or above a reorganised part, leaves a gap or stale rows: it is
  right exactly when the rows outside its range are (`BackfillCanonicalIff`). Later scans leave them too, as long as the
  chain keeps the cursor's hash and no event above takes a stale row's key (`LaterScansLeave`, `BackfillLeavesAGap`); a
  rewind rescans its window, and another backfill repairs its range (`BackfillRepairs`).
- Start, pause and resume write a run's status without looking at it again. Each of them takes a final run back when
  the run became final after the check (`EveryRouteCanReviveARun`); final statuses are for good exactly when no such
  late write happens (`FinalsKeptIff`). The verdict itself is not lost (`VerdictIsForGood`).
- Two pollers on one intent can leave a ledger row for an intent that has failed or is parked, while the poll reports
  it as credited (`TwoPollersMirrorALoss`); the mirror of a funding is right exactly when every credit transaction acts
  on an intent its poller last saw as attested, or comes after another credit (`MirrorsRightIff`). The other direction
  never fails: a credited funding always has its ledger row (`CreditedHasRow`).
- An auditor packet loads the keys once for its rows and again for itself; a rotation recorded in between leaves a row
  without its key exactly when the row does not lie before the rotation (`TwoLoadsIff`, `TwoLoadsCanMissAKey`).
- A text comes back from its chunks exactly when it has no NUL character (`TextSurvivesIff`).
- Hook data whose user word has non-zero upper bytes is accepted as a match (`MatchesIff`, `AnotherTextMatches`).
- Paging skips rows exactly when a page ends between two rows at one position (`CrawlIsFeedIff`,
  `SplitPositionSkipsARow`).
- The intake counts in millionths, the worker in the decimals of its token. With fewer than six, a total can parse, so
  that the run can start, while none of its items does (`TotalParsesIff`, `WorkerAmount`, `HalvesAddUp`).

## Model

| member | source | states |
|---|---|---|
| IndexerChain.EventsOnPrefix | services/api/src/indexer/scanner.ts:264-354 | chains that agree up to a block have the same decoded events up to it, whatever they hold above |
| IndexerChain.DecodesIff | services/api/src/indexer/scanner.ts:264-354 | for each event name, which named arguments the row's two addresses and its ciphertext are, and that a log without them gives no row |
| IndexerChain.EventsAre | services/api/src/indexer/scanner.ts:228-255 | a row is an event of a block range exactly when some log of the contract in the range gives it, column by column |
| IndexerTable.UpsertSlice | services/api/src/indexer/scanner.ts:463-487 | a row of any contract is in the table after an upsert exactly when it was upserted, or was there and its key was not overwritten |
| IndexerTable.DeleteSlice | services/api/src/indexer/scanner.ts:489-504 | a windowed delete takes exactly the contract's rows in the window and no other contract's |
| IndexerTable.WindowRowsExact | services/api/src/indexer/scanner.ts:210-262 | the rows of a window are the direct filter of its blocks, each log key once |
| IndexerScan.StepProgress | services/api/src/indexer/scanner.ts:134-148 | any turn of the loop puts the cursor on the chain, so there is at most one rewind, by one window and not below the start; every other turn takes exactly one window or what is left |
| IndexerScan.ResidualExact | services/api/src/indexer/scanner.ts:356-367 | when the parent hash agrees, the contract's rows are exactly the events of start to the cursor on this chain |
| IndexerScan.RewindExact | services/api/src/indexer/scanner.ts:369-418 | a rewind within the depth bound leaves exactly the events below the landing block of the new branch |
| IndexerScan.CommitExact | services/api/src/indexer/scanner.ts:158-183 | storing a window extends exact rows to exact rows up to the window's end |
| IndexerScan.StepExact | services/api/src/indexer/scanner.ts:134-200 | from any repairable cursor one turn leaves exactly the events up to the new cursor, which is also the stored one |
| IndexerScan.ScanCanonical | services/api/src/indexer/scanner.ts:110-208 | a scan to a target above the cursor ends with the direct filter of start to target, whatever the window and the earlier scans |
| IndexerScan.ScanOthers | services/api/src/indexer/scanner.ts:463-504 | scanning one contract gives another no row and takes only rows whose key is, on this chain, no longer the other's |
| IndexerScan.BackfillRepairs | services/api/src/indexer/scanner.ts:158-183 | a backfill makes its range exact with no assumption on the rows that were there |
| Indexer.RunCanonical | services/api/src/indexer/scanner.ts:62-108 | one run over contracts that share the table, each perhaps on its own stale branch, leaves each exact up to the target |
| Indexer.RunBackfill | services/api/src/indexer/scanner.ts:62-108 | a backfill run makes the range exact for every contract, from any table |
| Indexer.TurnOnTheWay | services/api/src/indexer/scanner.ts:134-200 | a turn keeps where the scan ends and keeps its counters equal to the windows stored so far |
| Indexer.ReportStarts | services/api/src/indexer/scanner.ts:118-131 | where a scan starts and ends, by the stored cursor, the chain and whether it is a backfill |
| Indexer.RunAddsBelow | services/api/src/indexer/scanner.ts:91-101 | whatever the table, a run adds or changes no row and no cursor above its target |
| Indexer.TargetIsLargest | services/api/src/indexer/scanner.ts:65-73 | the target obeys the confirmation depth and the requested end, and no larger block does |
| Indexer.IndexerJob.RewindCursorWindow | services/api/src/indexer/scanner.ts:369-418 | deletes the last window of the contract and stores the cursor below it with the hash read from the current chain |
| Indexer.IndexerJob.ScanWindow | services/api/src/indexer/scanner.ts:210-262 | decodes the window's logs in order; on a chain with unique keys that is the direct filter |
| Indexer.IndexerJob.CommitWindow | services/api/src/indexer/scanner.ts:158-183 | stores the rows and the cursor together, replacing the window's rows in a backfill |
| Indexer.IndexerJob.ScanTurn | services/api/src/indexer/scanner.ts:134-200 | one turn of the loop is one step of the specified scan and reports the rows it stored |
| Indexer.IndexerJob.ScanContract | services/api/src/indexer/scanner.ts:110-208 | the loop ends, rewinds at most once, reaches the specified database, and reports the blocks it read: from the start in a backfill or without a cursor, otherwise on from the stored cursor, or from a window lower when the chain has left its hash |
| Indexer.IndexerJob.ScanContracts | services/api/src/indexer/scanner.ts:91-101 | every contract is scanned once and in order, on the database as the one before left it, and each report is its own scan's |
| Indexer.IndexerJob.RunIndexerOnce | services/api/src/indexer/scanner.ts:62-108 | the target is the largest block that is deep enough below the head and no further than asked; every row and cursor the run adds lies at or below it; below start it does nothing, otherwise every contract is scanned in order and each report says what was read |
| IndexerRuns.OtherSliceKept | services/api/src/indexer/scanner.ts:463-487 | when keys keep their contract, storing one contract's window leaves another branch's rows of another contract alone |
| IndexerRuns.RetimedIff | services/api/src/indexer/scanner.ts:228-242 | reading the block times of a window after its logs gives the rows of its branch exactly when the blocks that hold rows still have their times |
| IndexerRuns.CommitKeepsInv | services/api/src/indexer/scanner.ts:158-183 | a commit of rows and head of one branch keeps every contract canonical and every cursor trustworthy, also when the chain has since left that branch within the depth bound |
| IndexerRuns.RewindKeepsInv | services/api/src/indexer/scanner.ts:369-418 | so does a rewind whose hash was read in an earlier step, perhaps before another switch |
| IndexerRuns.SwitchKeepsInv | services/api/src/indexer/scanner.ts:356-367 | so does a reorganisation within the depth bound at any moment, also one that replaces a window before its first read or between its last read and its commit |
| IndexerRuns.BackfillKeepsInv | services/api/src/indexer/backfill.ts:15-37 | so does a backfill that meets its exact condition |
| IndexerRuns.StepKeepsInv | services/api/src/indexer/scanner.ts:110-208 | every step of every run keeps the invariant |
| IndexerRuns.IndexAlwaysCanonical | services/api/src/indexer/scanner.ts:110-208 | in every run of switches, steps, backfills and crashes, at every moment, each contract's rows are exactly the events of start to lastBlock on the branch its cursor's hash names, none above it |
| IndexerRuns.ScanIsPath | services/api/src/indexer/scanner.ts:133-207 | a scan that nothing disturbs, rewind included, is a path of the machine from its boundary check to its end, so the machine can do all that the job does |
| IndexerReorgs.RewindCanonicalIff | services/api/src/indexer/scanner.ts:369-418 | a rewind keeps a contract canonical exactly when its events below the landing block survived the reorganisation |
| IndexerReorgs.TornWindowCanonicalIff | services/api/src/indexer/scanner.ts:210-262 | a window whose logs, head and block times come from different chains is canonical exactly when the head's branch has the surviving rows below it and, in the window, the very rows that were read |
| IndexerBackfill.BackfillLeaves | services/api/src/indexer/scanner.ts:463-504 | a backfill leaves its range exact and, of the contract's other rows, those whose keys the range does not take |
| IndexerBackfill.BackfillCanonicalIff | services/api/src/indexer/backfill.ts:15-37 | a backfill leaves a contract canonical exactly when its rows outside the range are the chain's events below the range and none lies between the range and the start block |
| IndexerBackfill.OverlappingBackfill | services/api/src/indexer/backfill.ts:15-37 | so one that starts no later than the cursor's next block, on a branch that agrees below it, is safe |
| IndexerBackfill.BackfillOther | services/api/src/indexer/scanner.ts:463-504 | where log keys keep their contract, a backfill leaves every other contract canonical |
| IndexerBackfill.LaterScansLeave | services/api/src/indexer/scanner.ts:134-208 | of the rows at or below the cursor, later scans on a chain that keeps the cursor's hash add none and take exactly those whose key an event above has |
| IndexerReorgs.BackfillLeavesAGap | services/api/src/indexer/backfill.ts:15-37 | a backfill of block 1 of an empty index leaves it wrong, and every later scan of any chain with these two blocks still lacks the event of block 0 |
| IndexerReorgs.TornReadBreaksIndex | services/api/src/indexer/scanner.ts:134-200 | a run from the start in which a switch between check and read leaves the index wrong |
| IndexerSwitches.FreeStepKeepsInv | services/api/src/indexer/scanner.ts:110-208 | whatever the chain switches to, a job works from the stored cursor and what it has read has the shape of one window of its contract |
| IndexerSwitches.StepCanonicalIff | services/api/src/indexer/scanner.ts:134-200 | from a right index, any one step leaves every contract right exactly when the window, rewind or backfill it stores is right |
| IndexerSwitches.AlwaysCanonicalIff | services/api/src/indexer/scanner.ts:110-208 | over every run with switches to any chain at any moment, crashes and any backfills, the index is right up to a moment exactly when every window, rewind and backfill stored before it was right |
| IndexerSwitches.TolerableRunsAreRight | services/api/src/indexer/scanner.ts:356-418 | the hypotheses on switches and backfills make everything that is stored right |
| PayrollWorker.CountRunSplits | services/api/src/payroll/runner.ts:124-154 | the five status counts of a run add up to its items |
| PayrollWorker.GetPayrollProgressCounts | services/api/src/payroll/runner.ts:124-154 | each counter is the number of the run's items with its status, and the total is their number |
| PayrollSafety.CountsDecide | services/api/src/payroll/runner.ts:409-428 | the three open counters are all zero exactly when every item is settled, and the verdict is complete exactly when some item is confirmed |
| PayrollSafety.CountIsNumber | services/api/src/payroll/runner.ts:124-154 | a counter is the size of the set of the run's items with its status |
| PayrollSafety.PaidSumChange | services/api/src/payroll/runner.ts:355-365 | what is paid moves by one item's amount when that item's payment changes and by nothing otherwise |
| PayrollSafety.WrittenItemOk | services/api/src/payroll/runner.ts:222-312 | every write of an item keeps its stored transfer, never makes it paid or unpaid, and stores only a transfer that was never sent |
| PayrollSafety.MineKeepsInv | services/api/src/payroll/chain.ts:433-527 | a mined transfer leaves the balance non-negative and the items' verdicts true |
| PayrollSafety.WriteKeepsInv | services/api/src/payroll/runner.ts:166-328 | every awaited write keeps the invariant, acknowledged or not |
| PayrollSafety.StepKeepsInv | services/api/src/payroll/runner.ts:166-428 | every step of jobs, routes, chain and crashes keeps the invariant |
| PayrollRuns.RunGrows | services/api/src/payroll/runner.ts:166-428 | along every run an item's hash is set once and stays, settled items stay as they are, attempts only rise, a run gains no items, and what the chain has seen and mined stays |
| PayrollRuns.PaysAtMostOnce | services/api/src/payroll/runner.ts:250-299 | in every run only the transfer an item has stored is ever sent, so an item is paid once; submitted has a hash; confirmed means paid and failed means not; at most five tries and proofs |
| PayrollRuns.SettledIsTheLastWord | services/api/src/payroll/runner.ts:330-407 | an item once confirmed stays paid and one once failed is never paid at any later moment |
| PayrollRuns.MoneyIsConserved | services/api/src/routes/payroll.ts:170-242 | first balance plus funding is the balance left plus the items paid, never negative; a run pays at most its total and no recipient of a run twice |
| PayrollRuns.PauseHolds | services/api/src/payroll/runner.ts:219-234 | over any stretch of a run in which no route writes it, a paused payroll run stays paused, or becomes final because all its items are settled |
| PayrollRuns.FinalIsTrue | services/api/src/payroll/runner.ts:409-428 | a final status means every item is settled, and is complete exactly when some item is confirmed |
| PayrollRoutes.StepKeepsFinalsIff | services/api/src/routes/payroll.ts:300-414 | a step of a job, the chain or a route keeps every final status exactly when it is not a route's write to a run that is final |
| PayrollRoutes.FinalsKeptIff | services/api/src/routes/payroll.ts:300-414 | over every run of the machine all final statuses are kept for good exactly when no route writes to a run that has become final since its check |
| PayrollRoutes.PromptRoutesKeepFinals | services/api/src/routes/payroll.ts:300-414 | where every route writes at once after its check, final statuses are for good |
| PayrollRoutes.VerdictIsForGood | services/api/src/payroll/runner.ts:409-428 | whatever the routes write, a payroll run that is final again has the status it had before, over items that stay settled |
| PayrollRoutes.EveryRouteCanReviveARun | services/api/src/routes/payroll.ts:300-414 | for each of start, pause and resume a run from the start in which its check passes, the payroll run becomes complete, and its write takes that back |
| PayrollRoutes.RouteChecks | services/api/src/routes/payroll.ts:300-400 | start goes on from ready, paused or running, pause from any status but complete and failed, resume from paused, and none from any other |
| PayrollRoutes.RouteWrites | services/api/src/routes/payroll.ts:345-414 | whatever the run is by then, start and resume leave it running and pause leaves it paused, and nothing else changes |
| PayrollOutcome.LostTry | services/api/src/payroll/runner.ts:250-318 | without enough balance, a signature or an acknowledged store the try is lost: pending again or failed on the fifth, with the stored transfer only when its acknowledgement was lost |
| PayrollOutcome.StoredTry | services/api/src/payroll/runner.ts:250-407 | with them, the network's answer and the chain alone decide between submitted, confirmed and failed, and the treasury pays exactly when the chain mines the transfer |
| PayrollOutcome.ResumedTry | services/api/src/payroll/runner.ts:330-407 | an item with a stored transfer is not prepared again: it ends as the chain has that very transfer, sent again when the item still holds it |
| PayrollOutcome.SettledRunsAre | services/api/src/payroll/runner.ts:409-428 | counting settles the run exactly when all its items are settled and changes no other run |
| PayrollJob.PlayGrows | services/api/src/payroll/runner.ts:166-407 | any steps a job records keep the invariant and only grow the tables |
| PayrollJob.PayrollJob.FinalizeRunIfSettled | services/api/src/payroll/runner.ts:409-428 | sets the verdict exactly when the run has no open item and changes nothing else |
| PayrollJob.PayrollJob.MarkItemFailed | services/api/src/payroll/runner.ts:430-444 | fails the item, drops its raw transfer, and touches no other table |
| PayrollJob.PayrollJob.StoreTransfer | services/api/src/payroll/runner.ts:281-299 | the signed transfer is stored before it can be sent; a lost acknowledgement is a failure of the attempt |
| PayrollJob.PayrollJob.PrepareTransfer | services/api/src/payroll/runner.ts:250-318 | a transfer is prepared exactly when it is signed, its store is acknowledged and the balance allows it, and is then the stored transfer of the amount; nothing is sent |
| PayrollJob.PayrollJob.FailAttempt | services/api/src/payroll/runner.ts:300-318 | throws exactly while tries are left, leaving the item pending, and otherwise fails it |
| PayrollJob.PayrollJob.SubmitPreparedTransfer | services/api/src/payroll/chain.ts:433-448 | an accepted or already known transfer is waited for, any other answer throws, and no row changes |
| PayrollJob.PayrollJob.WaitForConfirmations | services/api/src/payroll/chain.ts:525-527 | an outcome is what the chain mined for this very transfer, and there is none exactly when the job gave up or the transfer is not mined |
| PayrollJob.PayrollJob.ConfirmSubmittedItem | services/api/src/payroll/runner.ts:330-407 | the item ends confirmed when mined, failed when reverted, and otherwise submitted with its hash while the job throws |
| PayrollJob.PayrollJob.ProcessPayrollItem | services/api/src/payroll/runner.ts:166-328 | a job leaves a run that may not proceed alone; otherwise the item, the treasury's balance and the run's status after it are given by the item, the chain and the outside's answers, case by case, and it throws exactly when the item is not settled |
| PayrollIntake.ParseCsv | services/api/src/routes/payroll.ts:88-110 | the numbered first two columns of every line with content, less a header whose amount is no amount |
| PayrollIntake.SheetIsReadBack | services/api/src/routes/payroll.ts:88-110 | a sheet of clean cells is read back row by row, with or without a header |
| PayrollIntake.TrimIff | services/api/src/routes/payroll.ts:94-100 | trimming takes the white space at both ends and nothing else |
| PayrollIntake.ColumnsAre | services/api/src/routes/payroll.ts:98-100 | the two columns are what stands before the first two commas, trimmed, whatever follows |
| PayrollIntake.OneColumn | services/api/src/routes/payroll.ts:98-100 | a line without a comma is a recipient with an empty amount |
| PayrollIntake.ValidateRows | services/api/src/routes/payroll.ts:170-207 | each row has the first error that applies; its recipient is the address of its text in small letters or the directory's entry of its handle in any case; a row is a duplicate exactly when an earlier valid row goes to its recipient, so no address is valid twice however it is written |
| PayrollIntake.SameRecipientIff | services/api/src/routes/payroll.ts:186-188 | two addresses are one recipient exactly when they are the same number |
| PayrollIntake.RecipientsAre | services/api/src/routes/payroll.ts:172-207 | every preview's recipient, validity and error by its own text, the directory and the earlier valid rows |
| PayrollIntake.PayableAmountIff | services/api/src/routes/payroll.ts:79-82 | an amount is accepted exactly when it parses at six decimals to more than zero and does not end in a bare point |
| PayrollIntake.PreviewsAreDraft | services/api/src/routes/payroll.ts:170-207 | the valid rows have recipients, pairwise distinct, which is what the worker relies on |
| PayrollIntake.DraftTotalIsSum | services/api/src/routes/payroll.ts:209-210 | the run total in units is the sum over exactly the valid rows |
| PayrollIntake.PositiveUnits | services/api/src/routes/payroll.ts:79-82 | the text test for a positive amount agrees with the amount's value |
| PayrollIntake.Intake | services/api/src/routes/payroll.ts:120-242 | refuses an empty sheet or one of more than ten thousand rows; otherwise stores every row in order, valid or with the first error that applies, with a total that parses to the sum of the valid rows, ready exactly when some row is valid |
| PayrollIntake.Chunk | services/api/src/routes/payroll.ts:58-64 | batches of the given size, none empty, that put together are the list |
| Amounts.ParseFormat | services/api/src/routes/payroll.ts:632-644 | parsing undoes formatting for every amount at every precision |
| Amounts.FormatIsShort | services/api/src/routes/payroll.ts:632-644 | a formatted amount has no leading zero, no trailing zero among its decimals and no bare point |
| Amounts.ParseDenotes | services/api/src/payroll/runner.ts:529-542 | parsing accepts exactly the texts that denote an amount at the precision, and returns it |
| Amounts.SumAmounts | services/api/src/routes/payroll.ts:429-439 | the total is the formatted sum of the parsed amounts at six decimals |
| Amounts.WorkerAmount | services/api/src/payroll/runner.ts:260-263 | at any decimals the worker parses an intake amount exactly when it has no more decimals, and then to the same amount |
| Amounts.WorkerPaysTotal | services/api/src/payroll/runner.ts:260-263 | where every amount parses, the amounts the worker pays add up to the intake's total, whatever the two units |
| Amounts.TotalParsesIff | services/api/src/routes/payroll.ts:621-629 | the start route can parse a total at fewer than six decimals exactly when it is a whole number of the token's units |
| Amounts.HalvesAddUp | services/api/src/routes/payroll.ts:621-629 | two halves at no decimals: the total parses and no item does |
| OnrampService.TerminalIsAbsorbing | services/api/src/onramp/service.ts:17-43 | credited and failed are exactly the statuses with no way out; all others may fail, and none loops or returns to initiated |
| OnrampService.TransitionTable | services/api/src/onramp/service.ts:19-43 | the sixteen moves between statuses, and no other |
| OnrampService.IntentStore.CreateIntent | services/api/src/onramp/service.ts:72-106 | creates exactly when no intent has the burn transaction, and otherwise returns that intent unchanged |
| OnrampService.IntentStore.TransitionIntent | services/api/src/onramp/service.ts:164-191 | from a row read earlier: moves exactly along the table and only where the status is still the one read, changing only the patched columns of this intent; otherwise reports a missing row, a forbidden move or a conflict and changes nothing |
| OnrampSafety.EffectMoves | services/api/src/onramp/poller.ts:337-505 | one write of a poller, whatever it last saw, moves one intent along the table and never loses its burn or amount |
| OnrampSafety.StatusFollowsTable | services/api/src/onramp/service.ts:19-43 | under any interleaving of pollers an intent moves along the table, is never seen minted, and has an amount from attested on |
| OnrampSafety.TerminalForGood | services/api/src/onramp/poller.ts:123-276 | under any interleaving credited and failed never change, nor does a ledger row |
| OnrampSafety.OwnCredit | services/api/src/onramp/poller.ts:456-479 | the credit transaction ends credited with the intent's single ledger row and leaves every other intent's ledger alone |
| OnrampSafety.StepKeepsInv | services/api/src/onramp/poller.ts:123-276 | with one poller for an intent at a time every step, crash and replay keeps the credit invariant |
| OnrampSafety.CreditedExactlyInLedger | services/api/src/onramp/poller.ts:231-276 | a mirrored funding is credited exactly when the ledger holds its row, with the amount minted for its consumed nonce; no nonce credits two intents |
| OnrampSafety.SettlesFromAttested | services/api/src/onramp/poller.ts:396-417 | a poller settles only an intent stored as attested with the minted amount |
| OnrampSafety.CreditedOutcomeIsTrue | services/api/src/onramp/poller.ts:231-236 | when a poller reports credited the stored row is credited |
| OnrampMirror.CreditKeepsMirrorIff | services/api/src/onramp/poller.ts:242-276 | one credit transaction leaves a right ledger mirror right exactly when its poller saw the intent as attested, the intent is stored as credited, or it is no mirrored funding |
| OnrampMirror.StepKeepsMirrorsIff | services/api/src/onramp/poller.ts:231-276 | with any pollers, any step leaves all mirrors right exactly when it is no credit transaction or such a one |
| OnrampMirror.MirrorsRightIff | services/api/src/onramp/poller.ts:231-276 | over every run, with any number of pollers on one intent, the mirrors are right up to a moment exactly when every credit transaction before it was such a one |
| OnrampMirror.CreditedHasRow | services/api/src/onramp/poller.ts:231-276 | over every run, with any number of pollers on one intent, a credited mirrored funding has its ledger row |
| OnrampMirror.TwoPollersMirrorALoss | services/api/src/onramp/poller.ts:396-479 | two runs from the start in which a second poller fails or parks an intent and the first still settles it and writes its ledger row |
| OnrampJob.PlayKeepsInv | services/api/src/onramp/poller.ts:123-236 | any steps a poll job records keep the credit invariant |
| OnrampJob.SelectedMessage | services/api/src/onramp/poller.ts:146-168 | for an intent with a nonce the poll acts on the first message that names it, and on none exactly when none does; without one on the first complete message, or on the first of all; and what it makes of it |
| OnrampJob.ActsOnItsNonce | services/api/src/onramp/poller.ts:278-304 | a poll of an intent with a nonce never acts on a message of another nonce |
| OnrampJob.PollJob.FailIntent | services/api/src/onramp/poller.ts:440-454 | only the status of the intent changes, to failed, from every status it can be polled in |
| OnrampJob.PollJob.ParkNeedsOnboarding | services/api/src/onramp/poller.ts:419-438 | the intent ends waiting for onboarding with its amount and nonce, from every status it can be polled in |
| OnrampJob.PollJob.AdvanceToAttested | services/api/src/onramp/poller.ts:396-417 | from every polled status the intent ends attested with its amount and nonce, in one write or two |
| OnrampJob.PollJob.CreditIntent | services/api/src/onramp/poller.ts:227-236 | the intent ends credited with its settlement, and the ledger gains its row, together |
| OnrampJob.PollJob.SettleDeposit | services/api/src/onramp/relayer.ts:141-228 | a used nonce is reported as settled already and an unused one is consumed with its transaction's hash; each refusal is reported as itself; no row changes |
| OnrampJob.PollJob.ProcessIntent | services/api/src/onramp/poller.ts:123-236 | the outcome, the stored row and the ledger after a poll, case by case, by what Iris, the key registry, the relayer and the credit transaction answer and whether the nonce was used; no other intent changes |
| OnrampJob.PollJob.PollOnrampIntents | services/api/src/onramp/poller.ts:77-116 | every outcome is the one its own answers and the nonces used before the loop call for and is true of its stored intent; the counters count the outcomes, and credited and failed count exactly the intents that now have those statuses, even when the loop throws |
| OnrampMessage.ReadBackLaidOut | services/api/src/onramp/message.ts:8-19 | any digits are the fields at these offsets laid out again, with no gap and no overlap |
| OnrampMessage.ReadsField | services/api/src/onramp/message.ts:99-112 | reading at a field's offset gives the field, whatever the letter case of the digits |
| OnrampMessage.DecodesWhatItCarries | services/api/src/onramp/message.ts:34-88 | decoding gives every field of the message, minted plus fee is the amount and minted is positive, or the first of three refusals in order |
| OnrampMessage.DecodesIff | services/api/src/onramp/message.ts:34-123 | a text is decoded exactly when it is hexadecimal of 472 bytes with fee below amount and two 160-bit addresses |
| OnrampMessage.CarriesOne | services/api/src/onramp/message.ts:99-112 | a text carries one list of fields only |
| OnrampMessage.LargestAddress | services/api/src/onramp/message.ts:11 | the largest address is 2^160 - 1 |
| OnrampMessage.EveryTextIsThreeWords | services/api/src/onramp/hookdata.ts:47-51 | every hexadecimal text of 96 bytes is three words |
| OnrampMessage.HookDataRoundTrip | services/api/src/onramp/hookdata.ts:35-51 | hook data is read back whole |
| OnrampMessage.HookTextRoundTripIff | services/api/src/onramp/hookdata.ts:35-51 | encoding what was decoded gives the bytes back exactly when the upper twelve bytes of the user word are zero |
| OnrampMessage.MatchesIff | services/api/src/onramp/hookdata.ts:59-73 | a text matches the expected hook data exactly when its coordinates do and the user is the low twenty bytes of its word |
| OnrampMessage.AnotherTextMatches | services/api/src/onramp/hookdata.ts:59-73 | every hook data is matched by a text that is not its encoding |
| AuditorKeys.AmbiguousIff | services/api/src/auditor/service.ts:471-501 | a comparison throws exactly in the boundary's own block when no index places the event |
| AuditorKeys.SideOfBoundary | services/api/src/auditor/service.ts:471-501 | a comparison says on which side the event lies, by block, then log index, or by transaction index where the boundary has no log index |
| AuditorKeys.CoversIff | services/api/src/auditor/service.ts:441-469 | a key covers exactly what does not lie before its activation and lies before its retirement |
| AuditorKeys.KeyTable.Rotate | services/api/src/routes/admin.ts:259-304 | retires what is active at the rotation's position and inserts the new key there, field by field, leaving exactly that one active |
| AuditorKeys.RotationKeepsHistoryIff | services/api/src/routes/admin.ts:259-304 | a rotation with a known log index keeps a proper history exactly when it lies after the last activation |
| AuditorKeys.RotationsGiveHistory | services/api/src/routes/admin.ts:212-304 | any rotations at increasing positions give keys that abut, with only the last active |
| AuditorKeys.CoversInterval | services/api/src/auditor/service.ts:441-469 | in a history a key covers exactly its half-open interval and no comparison is ambiguous |
| AuditorKeys.IntervalsPartition | services/api/src/auditor/service.ts:434-501 | from the first activation on every event is covered by exactly one key |
| AuditorKeys.LookupIsTotalAndUnique | services/api/src/auditor/service.ts:434-439 | whatever order the keys are loaded in, the lookup gives the one covering key, none before the first activation, and never fails |
| AuditorPacket.Auditor.FlushAuditRows | services/api/src/auditor/service.ts:375-381 | the log receives every pending entry once and in order, whatever the batches |
| AuditorPacket.Auditor.DecryptRows | services/api/src/auditor/service.ts:360-432 | on success one row for every event with a ciphertext, in order, each with a key that covers it; on failure one logged row for each such event before the failing one, which has an ambiguous key, no covering key or a cipher that fails |
| AuditorPacket.DecryptedAre | services/api/src/auditor/service.ts:384-432 | the rows up to the end or the first failure, and the three reasons for a failure |
| AuditorPacket.CiphertextsAre | services/api/src/auditor/service.ts:388-392 | no event with a ciphertext is left out and none is taken twice |
| AuditorPacket.SignerIsLatest | services/api/src/auditor/service.ts:529-556 | the signer is an active key after which, by block, log index and transaction index, no active key was activated, and there is one exactly when a key is active |
| AuditorPacket.CoverIntersects | services/api/src/auditor/service.ts:570-584 | a key that covers an event of the block range meets the range, for every key whatever |
| AuditorPacket.RangeIntersectsIff | services/api/src/auditor/service.ts:570-584 | the test on a key's blocks finds exactly the keys with a block in the range |
| AuditorPacket.PacketIsSelfContained | services/api/src/auditor/service.ts:158-185 | for every key table, with no rotation between the loads, the packet holds its signer and a covering key that decrypts each of its rows |
| AuditorPacket.PacketSelfContainedIff | services/api/src/auditor/service.ts:158-185 | for every key table, choosing the packet's keys loses none that a row needs: the packet is self-contained exactly when the second load has a key of every row |
| AuditorPacket.TwoLoadsIff | services/api/src/auditor/service.ts:163-185 | with rotations recorded between the two loads, in whatever order they list the keys, the packet is self-contained exactly when every decrypted row lies before the first of them |
| AuditorPacket.TwoLoadsCanMissAKey | services/api/src/auditor/service.ts:163-185 | one rotation between the loads and one row after it give a packet without the row's key |
| AuditorPacket.BuildAuditorPacket | services/api/src/auditor/service.ts:158-247 | succeeds exactly when every row decrypts with the first load of the keys and some key of the second is active, with exactly one row for every event; the packet is then self-contained exactly when the second load has a key of every row; the decryptions are logged either way |
| AuditorCsv.CellDenotesItsText | services/api/src/auditor/service.ts:624-632 | whatever follows it, a written cell is read back as its text, with quotes, commas and line breaks, null as empty |
| AuditorCsv.RecordRoundTrip | services/api/src/auditor/service.ts:616-620 | a joined line is read back cell by cell and leaves the rest |
| AuditorCsv.ReportIsReadBack | services/api/src/auditor/service.ts:601-622 | the report is read back as the header and the text of every column of every row |
| AuditorCsv.ReportShows | services/api/src/auditor/service.ts:601-622 | a reader finds ten named columns, and under each the field of that name of every row |
| AuditorCsv.ReportIsUnambiguous | services/api/src/auditor/service.ts:601-632 | two reports have the same text exactly when their rows agree, null counting as empty |
| Positional.ValueDigits | contracts/src/metadata.ts:44-58 | writing the number that digits denote only drops leading zeros, in any base |
| Positional.ValueFixed | services/api/src/onramp/message.ts:99-112 | a fixed number of digits is determined by its value, which is below the power of the base |
| Positional.BytesHexValue | contracts/src/metadata.ts:50-54 | the hexadecimal text of bytes is the same number as the bytes |
| Positional.EvenHexIsBytes | contracts/src/metadata.ts:76-81 | the evened hexadecimal digits of a number are its bytes with no leading zero byte |
| Utf8.DecodeUndoesEncode | contracts/src/metadata.ts:50-84 | decoding the UTF-8 bytes of any text gives the text |
| Utf8.LeadingZeros | contracts/src/metadata.ts:44-85 | the leading zero bytes of a text are exactly its leading NUL characters |
| Metadata.SplitIntoBigIntChunks | contracts/src/metadata.ts:8-27 | chunks below 2^250 that denote the number, with a non-zero top chunk unless alone |
| Metadata.CombineFromBigIntChunks | contracts/src/metadata.ts:29-39 | the number that chunks denote, least significant first |
| Metadata.SplitIsUnique | contracts/src/metadata.ts:8-39 | a number has one such split, so splitting undoes combining |
| Metadata.Str2Int | contracts/src/metadata.ts:44-58 | the split of the number of the text's UTF-8 bytes, and its length |
| Metadata.Int2Str | contracts/src/metadata.ts:63-85 | the decoded bytes of the chunks' number with NUL characters removed, through every special case |
| Metadata.TextRoundTrip | contracts/src/metadata.ts:44-85 | a text comes back with all its NUL characters removed and nothing else changed |
| Metadata.TextSurvivesIff | contracts/src/metadata.ts:44-85 | a text comes back whole exactly when it holds no NUL character |
| Metadata.SameNumberIff | contracts/src/metadata.ts:44-58 | two texts have the same chunks exactly when they differ only in leading NUL characters |
| Metadata.EnvelopeRoundTrip | contracts/src/metadata.ts:89-148 | the envelope of an encrypted text is read back whole, with or without its prefix |
| Metadata.ReadCiphertext | contracts/src/metadata.ts:136-144 | the loop reads the words of the ciphertext, a shorter last one included |
| Metadata.ChunksAreFieldElements | contracts/src/metadata.ts:12-13 | every chunk is below the order of the cipher's field |
| Metadata.EncryptMetadata | contracts/src/metadata.ts:89-120 | the envelope holds the cipher of the text's chunks and their number |
| Metadata.DecryptMetadata | contracts/src/metadata.ts:122-156 | the text of the decrypted chunks, or nothing when a word is not hexadecimal |
| Metadata.EncryptThenDecrypt | contracts/src/metadata.ts:89-156 | with an inverse cipher a message comes back without its NUL characters |
| Activity.CursorRoundTrip | services/api/src/routes/activity.ts:368-398 | parsing a cursor undoes formatting it |
| Activity.ParsesIff | services/api/src/routes/activity.ts:368-394 | a cursor is accepted exactly when it is digits, a colon, digits and nothing or another colon, and is then those numbers |
| Activity.RefusedIff | services/api/src/routes/activity.ts:55-59 | a request is refused exactly when it has a cursor that is no such text |
| Activity.LoadsRemaining | services/api/src/routes/activity.ts:231-250 | filtering by the cursor before ordering is cutting the ordered feed |
| Activity.PageIsStart | services/api/src/routes/activity.ts:61-81 | a page is the start of what is left, and there is a next cursor, its last row's position, exactly when more is left |
| Activity.NextCursorIsServed | services/api/src/routes/activity.ts:36-82 | a next cursor sent back as text is served as the next page |
| Activity.FeedIsComplete | services/api/src/routes/activity.ts:320-322 | the feed holds each row from or to the address as often as the table does and no other row, by block and then log index, newest first |
| Activity.CrawlIsFeedIff | services/api/src/routes/activity.ts:61-81 | following the cursors ends and shows the whole feed in order, each row once, exactly when no page ends between two rows at one position |
| Activity.SplitPositionSkipsARow | services/api/src/routes/activity.ts:61-81 | of two rows at one position a reader with pages of one row sees the first and is told there is no more |
| Activity.EveryCrawlIsFeedIff | services/api/src/routes/activity.ts:324-334 | that holds for every page size exactly when no block and log index repeat among the address's rows |
| Activity.LoadLinksByTxHash | services/api/src/routes/activity.ts:290-318 | every asked transaction gets its own links in table order and none of another's |

## Left out

- Fastify, viem, Drizzle, Postgres and pg-boss: tables are maps and sequences, a transaction or an awaited write is one
  step, jobs come in any order and number. Nothing is claimed about liveness, since queue retries can run out.
- The replacement detection of waitForTransactionReceipt, gas estimation and receipt timeouts: a wait ends with what the
  chain mined for the transfer, or fails.
- The loss of an advisory lock while its job still runs, after a lost database connection.
- Two treasury tokens of one organisation, funding checks of the start route, and role checks of all routes.
- Hashes, addresses and identifiers are numbers wherever only their equality matters; their letter case and checksums
  are not modelled outside the message and intake codecs.
- A block hash is the chain prefix it names: hash collisions are excluded.
- What the ABI makes of a log is given; the decoder of each event's arguments starts from named arguments.
- Poseidon, BabyJubJub, Groth16, AES-GCM, SHA-256 and keccak, so also the message hash, the manifest hash and its
  signature.
- Letter case outside ASCII in handle lookups, and lone surrogates in JavaScript strings: a text is a sequence of
  Unicode scalar values.
- White space that BigInt tolerates around hexadecimal digits, and the rounding of cursor log indexes above 2^53.
- `processPayrollItem` and `processIntent` as classes run one job with nothing between its steps but the outside's
  answers; what other jobs do in between is in the step machines only.
- IndexerRuns.IndexAlwaysCanonical: a backfill is one step, so the chain does not switch under it and no other job of the
  indexer runs beside it; one that crashes is one with a lower target. A backfill that ends below the configured start
  block is not modelled.
- PayrollJob.PayrollJob.WaitForConfirmations: the number of confirmations to wait for and replacement receipts are not
  modelled, because they are viem's; a mined transfer is final here.
- OnrampSafety.CreditedExactlyInLedger: needs one poller for an intent at a time, because it is false without; what
  holds with several is OnrampMirror.MirrorsRightIff and OnrampMirror.CreditedHasRow.
- OnrampJob.PollJob.SettleDeposit: gas estimation, the receipt and the reading of a revert are one given answer, because
  they are calls into the chain.
- OnrampJob.PollJob.PollOnrampIntents: the selection of the intents by status, update time and limit, and the guards on a
  missing router or relayer, are not modelled; the list of intents to poll is given.
- AuditorPacket.BuildAuditorPacket: totals, manifest hash, signature and the log entry of the export itself are left out.
- PayrollJob.PayrollJob.ProcessPayrollItem: the branch for a submitted item without a hash is not written out, because
  no such item is ever stored.
- The event links written with a confirmation: they insert what is not there and are read by the activity feed only.
- The draft and validating run statuses, which no code of the repository's API produces.
- The live streams of activity and payroll progress, `routes/orgs.ts`, onboarding, the treasury reconciler, guardrails,
  ceremony markers, handle and contact routes: they would only add easy members.
- The inflow and outflow totals of an auditor report, which the database sums.
- Deploy, seed, smoke and end-to-end scripts, and circuit artifacts.
