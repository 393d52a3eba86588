# Verified models of the payment system's five stateful cores

A Dafny model of the parts of this repository where a mistake loses money, access or a message,
with proofs of what they keep. Each source object whose methods change state is a class whose
methods are proved equal to a function of the state; the theorems are about those functions and
about runs of them. `dafny verify dfyconfig.toml` checks everything.

**QR encoder** (`Gf256*`, `ReedSolomon*`, `Qr*`). `api/static/qr.js` writes ISO/IEC 18004 byte-mode
symbols and is never decoded by its own tests. The model keeps its arrays and loops, adds a reader
that looks only at the finished matrix, and proves that the reader recovers exactly the encoded
bytes: version from the size, level and mask from the format cells, unmasking, zigzag,
de-interleaving, header. A reader of ours could share a mistake with the writer, so the direction of
the zigzag, the masks, the words and where they are shown are also stated in coordinates and against
the tables the standard prints (`QrGeometry`, `QrOrder`, `QrStandard`). Reed-Solomon rests on the ring laws of
the multiplication loop, placement on a bijection, and capacity on counting what the function
patterns reserve. That the bytes are a
field gives the minimum distance of the code: in every block half as many codewords as it has for
error correction may be damaged, and the data is still determined.

**Settlement** (`Settler*`). The ledger is the settler's tables; each transaction (settle, reorg,
both expiry sweeps) is one step, interleaved with arbitrary watcher, operator and client writes.
Money is exact: base units are integers, dollars are reals with floors. The MAC is an arbitrary
predicate on the invoice id and the quoted bill. What each transaction does is stated row by row and
as sums over rows (`SettlerOutcomes`, `SettlerRows`), what all of them keep as an invariant of every run.

**Chain walker** (`Walker*`). One step is a function of the store, the settings and an environment
that gives the provider's answer to every call and says which other calls fail. A failing read of
the store ends a step exactly as the failure of the call next to it does, so only one of the two is
counted. The transfer logs of a verified span are filtered and written as payment rows, one per
transaction hash and log index. Stored heights are a map, so two canonical blocks at one height cannot be represented;
inserting one is the integrity error of the source.

**Request queue and address pool** (`Queue*`, `RequestQueue`, `Pool*`, `AddressPool`). The queue's
runs contain one transaction of any worker at a time; a worker may serve any request at any time, as
a stale worker can, so every interleaving of any number of workers is covered. The pool is serial
and per account, with a constant ceiling.

**Rate limiter** (`Limiter*`, `RateLimiter`). An ideal pair of continuously refilled buckets sends
exactly when no window of time would then hold too many messages; the in-process limiter with its eviction and the Redis script with its key expiry
are both proved to refine it.

## Where the code and its documentation part

- `watcher/traversal.py` relies on re-inserting a block being idempotent. The store's insert
  (`watcher/store/postgres.py:108-113`) does nothing when the hash is already stored, even as
  orphaned, so a block that a reorg brings back stays orphaned and its height stays empty. The model
  has a switch `revives`: false is the shipped statement, true an insert that makes the row canonical
  again. `WalkerWitness.ResurrectionLeavesGap` is a run that breaks the chain with the shipped
  statement. `WalkerSafety.RunKeepsChain` gives the exact condition for either insert,
  `WalkerSafety.FreshRunKeepsChain` a condition on the answers the steps ask for, and
  `WalkerReorg.ConvergesExactlyWhen` the exact condition for convergence.
- A checkpoint of 0 is derived again from the head (`watcher/traversal.py:316-325`), and a rollback
  may reach 0 if blocks are stored from height 1 on; then the chain breaks for either insert
  (`WalkerWitness.ZeroCheckpointLeavesGap`). `WalkerSafety.StepKeeps`, `RunKeepsChain`, `StepReads`
  and `RunReads` are exact from any checkpoint; only the two sufficient conditions,
  `RevivingRunKeepsChain` and `FreshRunKeepsChain`, start from a positive height below everything
  stored, which every step keeps.
- A rollback orphans blocks and moves the checkpoint in two transactions. If only the first happens,
  heights between ancestor and checkpoint are never read again
  (`WalkerWitness.InterruptedRollbackSkips`).
- A rollback found in the middle of a step may move the checkpoint forward, over heights stored but
  not yet read (`WalkerWitness.ForwardRollbackSkips`). `WalkerSafety.RollBackReads`, `StepReads` and
  `RunReads` give the exact conditions under which no height is missed.
- `watcher/traversal.py:517-519` says that a log dropped because of a foreign block hash is re-read by
  the next step. The checkpoint moves past it in the same step, and no height at or below the
  checkpoint is read again before a rollback (`WalkerEvents.NeverReadAgain`,
  `WalkerWitness.DroppedLogIsLost`). What was offered under the verified hash is always recorded
  (`WalkerEvents.RunKeepsEvents`).
- `settler/service.py:786-797` says that re-running cannot credit an excess twice. It cannot within
  one grant; but a reorg that reverts another payment of the invoice revokes the grant, and settling
  again credits the same excess under the new grant (`SettlerWitness.ExcessCreditedTwice`). Exactly
  when that happens is `SettlerCredits.CreditsAgainExactlyWhen`, `ReorgThenSettleCredits` and,
  over runs, `RunCreditsTwice`; it never happens within one grant
  (`SettlerSafety.ExcessCreditedPerGrant`).
- `notifier/ratelimit.py:298-300` says the script runs on Redis's own clock; the code passes this
  process's `time.time()`. The model takes the time passed, and assumes it does not go back and is
  the clock by which keys expire.

## Model

| member | source | states |
|---|---|---|
| `Gf256.GfMultiply` | api/static/qr.js:87-96 | the shift-and-reduce loop computes the field product `Mul` |
| `Gf256.Commutative` | api/static/qr.js:87-96 | the product is commutative for all bytes |
| `Gf256.Associative` | api/static/qr.js:87-96 | the product is associative for all bytes |
| `Gf256.Distributive` | api/static/qr.js:87-96 | the product distributes over XOR in its second operand |
| `Gf256.MulTopXor` | api/static/qr.js:87-96 | the product distributes over XOR in its first operand, bit by bit of the second |
| `Gf256.OneIsRightUnit` | api/static/qr.js:87-96 | one is the unit of the product |
| `ReedSolomon.ReedSolomonDivisor` | api/static/qr.js:98-114 | the nested loops build the divisor coefficient list of the given degree |
| `ReedSolomon.MultiplyByRoot` | api/static/qr.js:106-111 | updating the coefficients in place, left to right, multiplies the polynomial by one more root factor |
| `ReedSolomon.DivisorIsRootProduct` | api/static/qr.js:98-114 | with its implicit leading one, the divisor evaluates everywhere to the product of (y - 2^i) over i below the degree |
| `ReedSolomon.ReedSolomonRemainder` | api/static/qr.js:116-129 | the shift-register loop computes the remainder of the data by the divisor |
| `ReedSolomon.RemainderVanishes` | api/static/qr.js:116-129 | for every divisor and every point where it vanishes, the data followed by the remainder evaluates to zero |
| `ReedSolomon.BlockIsCodeword` | api/static/qr.js:98-129 | for every data block and every degree, the block followed by its remainder evaluates to zero at each of the roots 2^0 .. 2^(degree-1) |
| `QrStandard.DoublingReduces` | api/static/qr.js:87-96 | the field is that of 0x11D: doubling shifts and reduces by that polynomial |
| `QrStandard.RootsDouble` | api/static/qr.js:98-114 | the roots of a code are 1, 2, 4, ... |
| `Gf256Field.NoZeroDivisors` | api/static/qr.js:87-96 | a product vanishes only if a factor does: the bytes are a field, every one but zero being a power of two |
| `ReedSolomonDistance.MinimumDistance` | api/static/qr.js:98-129 | two different blocks of the code, of equal length up to 255, differ in more places than it has error-correction codewords |
| `ReedSolomonDistance.DamageIsCorrectable` | api/static/qr.js:98-129 | a received block differs from at most one block of the code in half as many places as the degree, or fewer |
| `QrTables.Table` | api/static/qr.js:57-77 | for each of the 160 versions and levels: a positive code degree, at least one data codeword per block, no block of more than 255 codewords, and a count field wide enough for a full symbol |
| `QrTables.DataCodewords` | api/static/qr.js:143-148 | for every version and level, what error correction leaves of the symbol: something, and no more than the count field can name |
| `QrStandard.CapacitiesAre` | api/static/qr.js:57-77 | for all 160 versions and levels the tables leave as many data codewords as Table 7 of the standard says |
| `QrData.BitBuffer.Append` | api/static/qr.js:166-173 | appends exactly the low bits of the number, most significant first, and nothing for a negative length |
| `QrData.ChooseVersion` | api/static/qr.js:188-195 | returns the smallest version that holds the data, and none exactly when no version does |
| `QrData.AppendPadding` | api/static/qr.js:208-211 | fills the buffer to capacity with alternating pad codewords |
| `QrData.PackBits` | api/static/qr.js:213-219 | packs the bits eight at a time, most significant first |
| `QrBits.AllBitsOfPacked` | api/static/qr.js:213-219 | packing loses nothing: the packed bytes spell the bits again |
| `QrStandard.StreamStarts` | api/static/qr.js:197-206 | the stream starts with 0100, the number of bytes in 8 bits up to version 9 and 16 from version 10 on, and the bytes |
| `QrStandard.StreamEnds` | api/static/qr.js:206-211 | every bit after the bytes: zeros to the next codeword boundary after the terminator, then 0xEC and 0x11 in turn |
| `QrData.BuildCodewords` | api/static/qr.js:197-220 | the codewords are mode, count, data, terminator, alignment and padding of the standard, packed |
| `QrData.ReadBack` | api/static/qr.js:183-220 | for every byte string that fits, dropping header and padding from the codewords gives back exactly the bytes |
| `QrInterleave.LayoutCoversData` | api/static/qr.js:133-148 | for every version and level the blocks use up exactly the data codewords, and data plus error correction is the whole symbol |
| `QrInterleave.SplitBlocks` | api/static/qr.js:229-238 | cuts the data into short and long blocks and adds each block's remainder |
| `QrInterleave.Interleave` | api/static/qr.js:222-252 | emits the blocks column by column, skipping the missing last column of short blocks |
| `QrInterleave.InterleavedAt` | api/static/qr.js:240-252 | where every data and error-correction codeword of every block ends up in the stream, and that nothing else is emitted |
| `QrOrder.StreamOrder` | api/static/qr.js:222-252 | the place of every data and error-correction codeword in the stream as a number, from the shares of the blocks |
| `QrInterleave.DeinterleaveInterleaved` | api/static/qr.js:222-252 | a reader that gathers by index gets the data back from the interleaved stream |
| `QrInterleave.GatheredBlockIsCodeword` | api/static/qr.js:222-252 | every block a reader gathers from the stream satisfies all parity checks of its code |
| `QrDamage.BlocksAreShort` | api/static/qr.js:133-148 | no block of any version and level is longer than the code allows |
| `QrDamage.DamagedSymbolDetermines` | api/static/qr.js:222-252 | for every version and level, a stream damaged in each block in at most half as many places as it has error-correction codewords determines the data |
| `QrZigzag.PathIsBijection` | api/static/qr.js:350-369 | for every size congruent to 1 mod 4 the visiting order meets every module outside column 6 exactly once |
| `QrMatrix.FreeVisitedOnce` | api/static/qr.js:350-369 | for every reserved set containing column 6, each unreserved module is visited exactly once and no reserved one |
| `QrMatrix.Matrix.Set` | api/static/qr.js:272-275 | changes one module and, if asked, reserves it; nothing else |
| `QrMatrix.DrawCodewords` | api/static/qr.js:350-369 | writes bit i to the i-th free module of the zigzag and leaves every other module as it was |
| `QrMatrix.ReadsPlaced` | api/static/qr.js:350-369 | reading the free modules in order returns every bit that was placed |
| `QrGeometry.ZigzagStarts` | api/static/qr.js:350-369 | the visiting order starts at the bottom right module |
| `QrGeometry.ZigzagMoves` | api/static/qr.js:350-369 | every later step, in coordinates: left within a pair, then right and one row up or down, and at the end of a pair left into the next one, over column 6, in the same row |
| `QrMatrix.ApplyMask` | api/static/qr.js:385-393 | flips exactly the unreserved modules the mask selects |
| `QrMatrix.MaskIsInvolution` | api/static/qr.js:371-393 | masking twice restores the matrix, and reserved modules are never touched |
| `QrStandard.SumMasksSelect` | api/static/qr.js:371-383 | what masks 0 to 4 select, by parities and multiples of three |
| `QrStandard.ProductMasksSelect` | api/static/qr.js:371-383 | what masks 5 to 7 select, by the residue of the product of column and row |
| `QrPatterns.DrawTiming` | api/static/qr.js:281-285 | draws and reserves exactly the timing row and column |
| `QrPatterns.DrawFinder` | api/static/qr.js:329-340 | draws and reserves exactly the finder and separator, clipped to the symbol |
| `QrPatterns.DrawAlignment` | api/static/qr.js:342-348 | draws and reserves exactly one alignment pattern |
| `QrPatterns.AlignmentPatternPositions` | api/static/qr.js:150-162 | the insertion loop yields 6 and then the evenly spaced centres |
| `QrPatterns.PositionsInside` | api/static/qr.js:150-162 | for every version all alignment patterns fit inside the symbol |
| `QrPatterns.DrawAlignments` | api/static/qr.js:292-303 | draws the alignment patterns at every pair of centres except the three that meet finders |
| `QrPatterns.DrawFormatBits` | api/static/qr.js:395-414 | draws and reserves both copies of the format word and the dark module |
| `QrPatterns.DrawVersion` | api/static/qr.js:314-326 | draws and reserves both copies of the version word |
| `QrStandard.FinderShows` | api/static/qr.js:329-340 | every module of a finder: dark in the three by three core and on the ring at distance three, light elsewhere |
| `QrStandard.AlignmentShows` | api/static/qr.js:342-348 | every module of an alignment pattern: dark in the centre and on the ring at distance two |
| `QrStandard.TimingShows` | api/static/qr.js:281-285 | the timing row and column alternate, dark at even places |
| `QrStandard.PositionsAre` | api/static/qr.js:150-162 | the centre coordinates of all 40 versions are those of Annex E of the standard |
| `QrStandard.FormatWordIs` | api/static/qr.js:395-400 | the 32 format words are those of Annex C of the standard |
| `QrStandard.FormatShows` | api/static/qr.js:400-414 | which module shows which bit of the format word, in both copies, and the dark module |
| `QrStandard.SecondCopyReads` | api/static/qr.js:400-414 | the copy beside the other two finders names the level and the mask as well |
| `QrStandard.VersionWordIs` | api/static/qr.js:314-319 | the 34 version words are those of Annex D of the standard |
| `QrStandard.VersionShows` | api/static/qr.js:319-326 | which module shows which bit of the version word, in both copies |
| `QrPatterns.DrawFunctionPatterns` | api/static/qr.js:277-327 | colours and reserves exactly the function patterns, and nothing else |
| `QrCapacity.ReservedByVersion` | api/static/qr.js:277-327 | which modules are reserved depends on the version alone, so drawing format bits again reserves nothing new |
| `QrCapacity.CapacityIsExact` | api/static/qr.js:133-141 | for all 40 versions the free modules along the zigzag are exactly as many as the raw module count, so every codeword bit has a place and fewer than eight modules stay light |
| `QrCapacity.ReservedInGrid` | api/static/qr.js:277-327 | no function pattern sticks out of the symbol, and all of column and row 6 is reserved |
| `QrFormat.FormatWordReads` | api/static/qr.js:395-399 | the format word determines level and mask: its data bits survive the BCH remainder and the fixed XOR pattern |
| `QrFormat.FormatReads` | api/static/qr.js:401-414 | whatever the rest of the symbol, the format cells beside the top-left finder name the level and mask it was drawn with |
| `QrEncoder.FillSymbol` | api/static/qr.js:510-516 | the matrix before masking shows the function patterns, then the codewords along the free modules, every other module light |
| `QrEncoder.FilledDecodes` | api/static/qr.js:188-252 | reading the free modules, de-interleaving and dropping the header recovers the bytes from an unmasked symbol |
| `QrEncoder.RenderedDecodes` | api/static/qr.js:371-414 | masking and drawing the format bits loses nothing a reader needs |
| `QrEncoder.Render` | api/static/qr.js:526-529 | restoring the snapshot, masking and drawing format bits gives the rendering of that mask |
| `QrEncoder.ChooseMask` | api/static/qr.js:518-541 | of the eight renderings the one with the least penalty is kept, the lower mask number on a tie |
| `QrEncoder.ShownDecodes` | api/static/qr.js:505-542 | decoding uses the matrix alone and recovers the input from any rendering of the filled symbol |
| `QrEncoder.EncodeToMatrix` | api/static/qr.js:505-542 | fails exactly when no version holds the data; otherwise smallest version, first best mask, and the returned matrix decodes to exactly the input bytes |
| `SettlerMoney.SumRaw` | settler/amounts.py:45-64 | adds the amounts exactly |
| `SettlerMoney.Pow10Means` | settler/amounts.py:67-79 | the power of ten that scales base units to whole units |
| `SettlerMoney.UsdToRawRoundsDown` | settler/amounts.py:82-105 | converting a tolerance never rounds it up, and loses less than one base unit |
| `SettlerMoney.CreditRoundsDown` | settler/service.py:229-248 | what is credited never exceeds the excess and falls short by less than a millionth of a dollar |
| `SettlerMoney.GrantingCondition` | settler/policy.py:257-286 | the product is delivered exactly when something was paid and any shortfall is within tolerance |
| `SettlerMoney.DefaultTolerance` | settler/policy.py:138-170 | under the default table a grant needs at least 99.5% of the bill, and no more than one dollar's worth may be missing |
| `SettlerMoney.ToleranceMeaning` | settler/policy.py:166-176 | the floored integer tolerances mean exactly: within the percentage and the dollar cap, or within the percentage or the dollar floor |
| `SettlerMoney.DefaultTable` | settler/policy.py:240-286 | which outcome each shortfall and each excess leads to under the default policy, stated in money |
| `SettlerMoney.GrantingMonotone` | settler/policy.py:257-286 | more money never loses a grant |
| `SettlerMoney.CutoffMeaning` | settler/confirmations.py:72-121 | the single cutoff height says, block by block, exactly what the two confirmation regimes say |
| `SettlerLedger.FinalizedHead` | settler/repository.py:295-302 | the greatest height of a final block of the chain, none exactly when there is none |
| `SettlerService.Settler.CasInvoiceStatus` | settler/repository.py:415-427 | the row moves exactly when its status is one of the expected ones, and the caller learns which |
| `SettlerService.Settler.PromotePaymentToConfirmed` | settler/repository.py:429-436 | seen to confirmed, only from seen |
| `SettlerService.Settler.CreditPayment` | settler/repository.py:438-446 | confirmed to credited, only from confirmed |
| `SettlerService.Settler.EnqueueNotification` | settler/repository.py:568-608 | a row with a used key is not inserted again, and the caller learns it |
| `SettlerService.Settler.OpenManualReview` | settler/repository.py:614-660 | one open case per kind and invoice, and per payment |
| `SettlerService.Settler.CreateRefundRequest` | settler/repository.py:667-695 | one pending refund per invoice |
| `SettlerService.Settler.CreditInternalBalance` | settler/repository.py:779-787 | adds a positive amount to one balance and touches no other |
| `SettlerService.Settler.OpenReviewsForAnomalies` | settler/service.py:608-646 | opens one case per anomalous payment of the invoice |
| `SettlerService.Settler.CandidateTotal` | settler/service.py:374-384 | the total at stake is the sum over matching payments that have arrived |
| `SettlerService.Settler.PromoteCandidates` | settler/service.py:421-426 | promotes exactly the seen candidates at or below the cutoff |
| `SettlerService.Settler.CreditCandidates` | settler/service.py:692-698 | credits exactly the confirmed candidates at or below the cutoff |
| `SettlerService.Settler.RefuseTamperedInvoice` | settler/service.py:500-605 | a failed MAC credits nothing, opens a case and takes a live invoice out of the live set |
| `SettlerService.Settler.AnnounceGrant` | settler/service.py:761-857 | the messages of a grant, and the balance credit or refund its excess calls for |
| `SettlerService.Settler.ApplySettlement` | settler/service.py:649-888 | the whole new ledger of a grant, or no change when the compare-and-set loses |
| `SettlerService.Settler.ApplyPartiallyPaid` | settler/service.py:891-957 | the whole new ledger of a partial payment |
| `SettlerService.Settler.ApplyUnderpaidManualReview` | settler/service.py:960-1035 | the whole new ledger of an underpayment after the window |
| `SettlerService.Settler.Settle` | settler/service.py:338-497 | one transaction computes the settlement function: every branch, in order, with its whole new ledger |
| `SettlerService.Settler.RevertPaymentsInOrphanedBlocks` | settler/repository.py:834-854 | reverts exactly the live payments at heights whose only blocks are orphaned |
| `SettlerService.Settler.RevokeEntitlements` | settler/repository.py:884-893 | revokes the active entitlements of the given invoices, deleting nothing |
| `SettlerService.Settler.UnsettleInvoices` | settler/repository.py:939-966 | takes the given settled invoices back to awaiting, or to reverted past the window |
| `SettlerService.Settler.Reorg` | settler/service.py:1066-1151 | one transaction reverts, revokes, unsettles, notifies and records; with nothing to revert, no change |
| `SettlerService.Settler.SweepExpiredInvoices` | settler/service.py:1159-1217 | each selected invoice past its window goes to expired, or to review if it holds money |
| `SettlerService.Settler.ExpireStaleInvoices` | settler/service.py:1220-1310 | each selected invoice past its rate lock expires only if it has no payment at all |
| `SettlerSafety.AccessIsBacked` | settler/service.py:649-706 | in every reachable ledger an active entitlement's invoice has credited, right-asset, right-chain, unreverted payments of at least the amount due minus the tolerance |
| `SettlerSafety.AccessCostsAlmostAll` | settler/policy.py:138-170 | under the default table never less than 99.5% of the amount due |
| `SettlerSafety.OneGrantAtATime` | settler/repository.py:884-951 | with no unique index in the model, an invoice is paid or overpaid exactly when it has one active entitlement; grants minus revocations is always 0 or 1 |
| `SettlerSafety.GrantNeverConflicts` | settler/service.py:712-735 | the lost-race branch is unreachable: no active entitlement exists when one is inserted |
| `SettlerSafety.BalancesAreExact` | settler/service.py:776-813 | in every reachable ledger a balance is the sum of the floored excesses of its owner's credit messages |
| `SettlerCredits.CreditsExactlyWhen` | settler/service.py:776-813 | a settlement credits an excess if and only if the invoice may be decided and the payments at or below the cutoff exceed the bill by no more than the tolerance; what was credited before plays no part |
| `SettlerCredits.CreditsAgainExactlyWhen` | settler/service.py:786-800 | it credits an invoice a second time if and only if it did before and that guard holds again |
| `SettlerCredits.ReorgThenSettleCredits` | settler/service.py:1066-1151 | a settled invoice is credited after a reorg if and only if it lost a payment while its window was open, its MAC still verifies and what remains exceeds the bill within tolerance; a second time if and only if it had been credited before |
| `SettlerCredits.RunCredits` | settler/service.py:776-813 | over any run, an invoice has exactly as many credit rows as settlements that met the guard |
| `SettlerCredits.RunCreditsTwice` | settler/service.py:786-800 | over any run, an excess was credited more than once if and only if two settlements met the guard |
| `SettlerSafety.ExcessCreditedPerGrant` | settler/service.py:786-797 | an excess is credited at most once per grant, so at most once more than the grant was revoked |
| `SettlerSafety.NextKeeps` | settler/service.py:300-1310 | every transaction keeps all of the above |
| `SettlerSafety.RunKeeps` | settler/service.py:300-1310 | the invariant holds after every run of settlements, reorgs, sweeps, watcher writes and operator actions |
| `SettlerSafety.ReorgKeeps` | settler/service.py:1087-1101 | reverting, revoking and unsettling together keep access backed and grants matched |
| `SettlerSafety.SettleKeeps` | settler/service.py:338-497 | a settlement attempt, whatever its outcome, keeps the invariant |
| `SettlerLaws.GrantsExactlyWhen` | settler/service.py:338-497 | access is granted if and only if the invoice is live, authentic and on its asset's chain, and the payments at or below the cutoff cover the bill |
| `SettlerLaws.GrantIsExact` | settler/service.py:404-436 | on a grant the classified total is the sum of the matching payments at or below the cutoff, all of them now credited; nobody else's payments moved, and the invoice is overpaid exactly when more than the amount due was counted |
| `SettlerLaws.GrantMovesBalance` | settler/service.py:776-813 | a grant moves exactly one balance, by the floored excess, and only when the excess is kept |
| `SettlerLaws.CreditedOnce` | settler/repository.py:429-446 | no payment is ever moved to credited twice in a run |
| `SettlerLaws.NextProgress` | settler/repository.py:429-446 | payment rows are never deleted or rewritten; their status only moves forward |
| `SettlerLaws.SettleIsIdempotent` | settler/service.py:300-350 | settling twice on an unchanged ledger, head and clock changes nothing but the audit log |
| `SettlerLaws.OnlyTotalsMatter` | settler/service.py:374-466 | outcome, grant, messages and balances depend on the payments only through their totals |
| `SettlerLaws.SplittingIsInvisible` | settler/service.py:399-404 | splitting a payment into several at the same height with the same sum changes no outcome, message or balance |
| `SettlerLaws.DepthNeverHurts` | settler/confirmations.py:95-121 | a ledger that grants at one head still grants at any higher head and finalized head |
| `SettlerLaws.SweepNeverWritesOff` | settler/service.py:1173-1192 | the exact new status of every live invoice after a sweep: never expired while it holds money |
| `SettlerLaws.ExpiryNeverWritesOff` | settler/repository.py:1256-1266 | the exact new status of every live invoice after the rate-lock pass: never expired once it has a payment |
| `SettlerOutcomes.TotalsAreSums` | settler/service.py:374-420 | the three totals a settlement takes are sums over the rows: of what arrived for the invoice in its asset and on its chain, of the part of it at or below the cutoff, and of the part that is credited |
| `SettlerOutcomes.UndecidedOutcomes` | settler/service.py:338-372 | the outcome and the ledger for an invoice that is unknown, inconsistent, tampered with, settled or not live |
| `SettlerOutcomes.WaitsForDepth` | settler/service.py:428-447 | money that would cover the bill but is not deep enough leads to waiting, with invoice, messages and access untouched |
| `SettlerOutcomes.FallsShort` | settler/service.py:448-497 | money that does not cover the bill: nothing, a partial payment or a review, by the total and the window, with the status, the case and the message each one writes |
| `SettlerOutcomes.GrantOutcomes` | settler/service.py:448-497 | which of the four grants a covered bill leads to, by the counted total |
| `SettlerOutcomes.RefundIsExact` | settler/service.py:831-845 | an excess beyond tolerance adds one pending refund of exactly the total less the bill, unless one is pending |
| `SettlerOutcomes.ReorgRows` | settler/service.py:1066-1151 | a reorg row by row: which payments are reverted, which invoices are unsettled and to what status, which entitlements are revoked, in terms of the stored rows |
| `SettlerOutcomes.ReorgTakesAccess` | settler/service.py:1066-1151 | after a reorg an invoice that lost money is unsettled and has no active entitlement |
| `SettlerWitness.ExcessCreditedTwice` | settler/service.py:786-800 | a concrete run in which one overpayment of four dollars reaches the balance twice |
| `SettlerRows.CutoffMeans` | settler/confirmations.py:72-121 | which blocks are deep enough: by the count of confirmations, and by a final block where what is at stake is worth more than the threshold |
| `SettlerRows.DecidableMeans` | settler/service.py:338-372 | which invoices are decided at all: awaiting, seen or partially paid, with a MAC that verifies, on their asset's chain |
| `SettlerRows.PaymentRows` | settler/service.py:421-426 | what a settlement does to each payment row: confirmed or credited exactly when it stands and is deep enough, and otherwise nothing |
| `SettlerRows.OpeningKeepsUnique` | settler/repository.py:614-660 | opening a case keeps one open case per payment and per kind and invoice, and leaves one open |
| `SettlerRows.AnomaliesHaveCases` | settler/service.py:608-646 | whatever the outcome, every payment of the invoice with an anomaly that needs a human has an open case |
| `SettlerRows.RevocationIsAnnounced` | settler/service.py:1103-1140 | whoever loses access in a reorg is told, once per entitlement |
| `SettlerRows.OnlyRevocationsAreAnnounced` | settler/service.py:1103-1121 | every message a reorg adds is to the owner of an entitlement that was active and lost its money |
| `SettlerRows.ReorgIsAudited` | settler/service.py:1122-1140 | a reorg is recorded once for every invoice that lost money and for no other |
| `SettlerRows.BalanceMovesOnce` | settler/service.py:776-813 | in any ledger a grant credits a balance exactly when the excess is kept and its message was not queued before |
| `SettlerRows.GrantIsAudited` | settler/service.py:811-888 | what a grant leaves in the audit log |
| `SettlerRows.GrantIsAnnounced` | settler/service.py:737-857 | a grant is announced, and so is what became of its excess |
| `SettlerRows.SweepDecides` | settler/service.py:1159-1217 | the status of every invoice after a sweep, by its status, its window and its payment rows |
| `SettlerRows.SweepOpensCases` | settler/service.py:1159-1217 | after a sweep exactly the invoices that were live, past their window and hold money have got a case |
| `SettlerRows.ExpiryDecides` | settler/service.py:1220-1310 | the status of every invoice after the rate-lock pass, by its status, its lock and its payment rows |
| `Walker.ChainWalker.LatestCanonicalBlock` | watcher/store/postgres.py:95-102 | the stored canonical block of greatest height, none exactly when nothing is stored |
| `Walker.ChainWalker.InsertBlock` | watcher/store/postgres.py:104-113 | a known hash is left alone, a height held by another canonical block is refused, anything else becomes canonical |
| `Walker.ChainWalker.OrphanBlocksAbove` | watcher/store/postgres.py:115-122 | removes exactly the canonical heights above the given one |
| `Walker.ChainWalker.CommonAncestor` | watcher/traversal.py:421-440 | the downward search of the rollback, with its boundary, its depth limit and its failures |
| `Walker.ChainWalker.DoRollback` | watcher/traversal.py:421-464 | the rollback with every point at which it can fail |
| `Walker.ChainWalker.WalkSpan` | watcher/traversal.py:252-278 | phase one height by height, with every early exit, and phase two after it |
| `Walker.ChainWalker.DoStep` | watcher/traversal.py:213-304 | one poll computes the step function for every provider answer and every failing call |
| `Walker.FilterEvents` | watcher/traversal.py:513-532 | an event is kept as often as it came, unless the span has a header of its height with another hash, and then not at all; what is kept stays in order |
| `Walker.ChainWalker.InsertPayments` | watcher/store/postgres.py:348-384 | one row per new key with the height of its first event; every event either inserted a row or conflicted, and conflicts change nothing |
| `Walker.ChainWalker.FinishSpan` | watcher/traversal.py:281-304 | phase two: the logs filtered, the payments written, then the checkpoint, with each point at which it can fail |
| `WalkerEvidence.SilenceOrphansNothing` | watcher/traversal.py:344-388 | as long as no answer for a stored height contradicts the block stored there, a step orphans nothing, whatever fails or goes unanswered |
| `WalkerEvidence.TurnsBackOnEvidence` | watcher/traversal.py:384-419 | a span turns back only at a header that names another parent than the block stored below, or replaces a block with nothing below it, and searches from right below |
| `WalkerEvidence.PassesOnlyWhatFits` | watcher/traversal.py:384-403 | a height is passed only if its header fits the block below, or the block there |
| `WalkerEvents.FinishRecords` | watcher/traversal.py:281-296 | after a span there is a new payment row for exactly those keys that an event of the log answer has, unless its block was verified under another hash |
| `WalkerEvents.StepRecords` | watcher/traversal.py:213-304 | a step never changes or deletes a payment row; a new row is for an event the provider offered, and within the span only under the verified hash |
| `WalkerEvents.RunKeepsEvents` | watcher/traversal.py:213-304 | over every run no event that was offered for the block verified at its height is missing from the payments, and no row is changed |
| `WalkerEvents.ReadMeansRecorded` | watcher/traversal.py:281-296 | a height read against the block canonical there has every event recorded that the log answer attributed to that block |
| `WalkerEvents.NeverReadAgain` | watcher/traversal.py:513-519 | a height at or below the checkpoint is not read again before a rollback, so a dropped log is not, contrary to the comment |
| `WalkerWitness.DroppedLogIsLost` | watcher/traversal.py:513-519 | a run in which a transfer whose log was dropped is never recorded |
| `WalkerWitness.ReincludedRowIsStale` | watcher/traversal.py:39-48 | a run in which a transfer that moved to another height keeps the row of the old height |
| `WalkerScan.InsertLands` | watcher/store/postgres.py:104-113 | exactly when an accepted insert makes its header canonical: the hash is new, or canonical at that height already, or inserting revives |
| `WalkerScan.WalkIs` | watcher/traversal.py:252-299 | a walk is its verification, height by height, and what follows from how that ended: nothing, a rollback, or the reading of the logs |
| `WalkerScan.FreshExactly` | watcher/store/postgres.py:104-113 | as shipped, every insert of a span lands exactly when every header the span got to insert was fresh, judged on the store before the step and the answers asked for |
| `WalkerScan.StepLandsExactly` | watcher/store/postgres.py:104-113 | exactly when all inserts of a step land, from any checkpoint: always if inserting revives, and as shipped when every header it got to insert was fresh |
| `WalkerSafety.StepAnchored` | watcher/traversal.py:213-464 | every step keeps the checkpoint at or above a positive height below everything stored, for either insert |
| `WalkerSafety.ShippedGapExactly` | watcher/store/postgres.py:104-113 | as shipped, what a span leaves empty under a header it stores, judged on the store before the step and the answers asked for |
| `WalkerSafety.StepKeeps` | watcher/traversal.py:252-464 | from any checkpoint, a cold start included, a step keeps adjacent canonical blocks linked and those above the checkpoint contiguous exactly when it leaves no gap: no fresh header right above a height neither stored nor served fresh, with both outliving the step above its checkpoint |
| `WalkerSafety.RunKeepsChain` | watcher/traversal.py:252-464 | the chain is verified after every step of a run exactly when no step leaves such a gap, whatever the provider answers, wherever steps fail and whatever the checkpoint |
| `WalkerSafety.RevivingRunKeepsChain` | watcher/traversal.py:18-20 | if inserting made an orphaned row canonical again, the chain would stay verified over every run from an anchored start |
| `WalkerSafety.FreshRunKeepsChain` | watcher/store/postgres.py:104-113 | as shipped, the chain stays verified over every run in which no header that was inserted had a hash stored as orphaned or at another height |
| `WalkerSafety.RollBackReads` | watcher/traversal.py:421-464 | a rollback leaves no unread height behind exactly when it writes nothing, or moves the checkpoint over heights all read before, or orphans only above an unmoved checkpoint |
| `WalkerSafety.StepReads` | watcher/traversal.py:213-464 | from any checkpoint, a step leaves no unread height behind exactly when, if it reads its span, its headers landed and the heights that a derived start skips had been read, and if it rolls back, the rollback is safe |
| `WalkerSafety.RunReads` | watcher/traversal.py:213-464 | over any run every height since the start has had its logs filtered against the hash now canonical there, after every step, exactly when every step was safe |
| `WalkerReorg.AgreementDescends` | watcher/traversal.py:332-357 | with linked chains and collision-free hashes agreement is downward closed |
| `WalkerReorg.MatchingTip` | watcher/traversal.py:332-357 | a matching tip means that nothing stored diverges |
| `WalkerReorg.SearchFinds` | watcher/traversal.py:421-440 | the search finds the greatest height within reach that does not diverge, and fails exactly when there is none |
| `WalkerReorg.RollBackIsExact` | watcher/traversal.py:421-464 | from the tip: orphans exactly the diverging blocks, lands on the highest common ancestor, and raises with the store untouched exactly when none is within reach |
| `WalkerReorg.SyncedStep` | watcher/traversal.py:213-304 | a synced walker moves the checkpoint to the head, or by `max_blocks_per_step` if that is less, or has nothing to do |
| `WalkerScan.AdvancesOneSpan` | watcher/traversal.py:221-304 | any step that advances does so by one span, from the checkpoint or the derived start; a step that idles had nothing ahead of it |
| `WalkerReorg.Converges` | watcher/traversal.py:213-304 | against a chain that stops changing: at most one rollback, checkpoint at the head, exactly the provider's blocks stored |
| `WalkerReorg.ConvergesExactlyWhen` | watcher/traversal.py:213-464 | it converges if and only if a common ancestor lies within reach of a rollback and no missing block of the provider was orphaned before, unless inserting revives it |
| `WalkerReorg.ColdStartConvergesExactlyWhen` | watcher/traversal.py:213-325 | from an empty store at a checkpoint derived from the head it converges if and only if no block from there on was orphaned before, unless inserting revives it |
| `WalkerReorg.LostForever` | watcher/store/postgres.py:104-113 | as shipped, an orphaned block that is canonical nowhere is never canonical again in any run |
| `WalkerReorg.StuckForever` | watcher/traversal.py:421-440 | with no common ancestor within reach every step raises and the store never changes |
| `WalkerWitness.ResurrectionLeavesGap` | watcher/store/postgres.py:104-113 | a run in which a block that comes back leaves its height empty; reviving it would not |
| `WalkerWitness.InterruptedRollbackSkips` | watcher/traversal.py:447-448 | a run in which the second write of a rollback fails and a height is never read |
| `WalkerWitness.ForwardRollbackSkips` | watcher/traversal.py:262-270 | a step whose rollback moves the checkpoint forward over unread heights |
| `WalkerWitness.ZeroCheckpointLeavesGap` | watcher/traversal.py:316-325 | a run from a positive checkpoint with no positive height below the stored blocks, whose rollback to 0 breaks the chain even if inserting revives |
| `RequestQueue.RequestTable.ClaimNext` | deriver/requests.py:280-298 | takes the oldest pending request not excluded, counts the attempt, and reports none exactly when there is none |
| `RequestQueue.RequestTable.Complete` | deriver/requests.py:300-310 | reply and invoice are committed together, or neither, by the status compare-and-set alone |
| `RequestQueue.RequestTable.Refuse` | deriver/requests.py:312-322 | processing to failed, only from processing |
| `RequestQueue.RequestTable.Requeue` | deriver/requests.py:324-332 | processing to pending, only with budget left |
| `RequestQueue.RequestTable.ServeOne` | deriver/main.py:207-282 | what each outcome of the issuer commits; a lost lease commits nothing |
| `QueueTransitions.SubmitAdds` | core/invoicing/client.py:113-116 | a request becomes a pending row without attempts, once |
| `QueueTransitions.RaisedRequeues` | deriver/main.py:234-256 | an attempt that raised: pending again with budget left, refused without, and only if the row is processing |
| `QueueTransitions.SweepReturns` | deriver/requests.py:334-359 | the lease sweep row by row: touched exactly when processing for longer than the lease, and then pending or refused by budget |
| `QueueTransitions.StatusChangesExactly` | deriver/requests.py:276-366 | the four status changes a request can make, each with its exact condition, and what counts an attempt |
| `QueueTransitions.FinishedRowsSayWhen` | deriver/requests.py:276-366 | the completion and claim times change with the status and only then |
| `QueueTransitions.RemovedExactlyWhen` | deriver/requests.py:361-366 | a row goes exactly when a prune finds it done or refused for longer than the retention time |
| `QueueTransitions.AnsweredBeforeRemoved` | deriver/requests.py:361-366 | over every run a row that is gone was pruned a retention time after it was answered |
| `RequestQueue.RequestTable.RunOnce` | deriver/requests.py:567-583 | once arrivals stop, a pass terminates whatever the issuer answers and whatever other workers commit in between, attempts no request twice, and leaves no pending request unattempted |
| `RequestQueue.RequestTable.ReclaimStale` | deriver/requests.py:506-546 | the two sweep statements together are the lease sweep |
| `RequestQueue.RequestTable.PruneCompleted` | deriver/requests.py:549-564 | deletes exactly the finished rows past retention |
| `RequestQueue.RequestTable.Housekeeping` | deriver/main.py:514-532 | sweep, then prune |
| `QueueSafety.AtMostOnce` | deriver/requests.py:301-359 | under every interleaving a request is done exactly when one invoice was committed for it and its reply names it; any other request has none |
| `QueueSafety.AtMostOnceEver` | deriver/requests.py:361-365 | a request has at most one invoice even after its row was pruned |
| `QueueSafety.BudgetHolds` | deriver/requests.py:324-359 | attempts never exceed the maximum, and a pending request is below it |
| `QueueSafety.LifeIsBounded` | deriver/requests.py:280-365 | a request makes at most 2 * max + 1 transitions under any interleaving |
| `QueueSafety.SweepPartitions` | deriver/requests.py:334-359 | an expired lease is handled by exactly one half of the sweep, nothing else is touched, and a second sweep finds nothing |
| `QueueSafety.RunKeeps` | deriver/requests.py:280-365 | the invariant holds after every run of submits, claims, outcomes, sweeps, prunes and crashes |
| `RequestQueue.PassKeeps` | deriver/requests.py:567-583 | a pass, with what others commit during it, keeps everything a run keeps |
| `AddressPool.Account.DeriveNewAddress` | deriver/pool.py:309-355 | bumps the index and inserts, or refuses at the ceiling or on an inactive account without a trace |
| `AddressPool.Account.ReserveAddressForInvoice` | deriver/pool.py:433-473 | takes the lowest free address, derives only if there is none |
| `AddressPool.Account.AllocateFreeAddress` | deriver/pool.py:358-385 | the free address it returns stays free |
| `AddressPool.Account.BindAddressToInvoice` | deriver/pool.py:388-430 | binds exactly a free, unbound, never funded address |
| `AddressPool.Account.ScheduleRelease` | deriver/pool.py:229-235 | sets the cooldown of a reserved address only |
| `AddressPool.Account.ReleaseDueAddresses` | deriver/pool.py:243-260 | frees exactly the addresses that meet every reuse condition |
| `AddressPool.Account.MarkAddressFunded` | deriver/pool.py:266-273 | latches an address as funded |
| `PoolModel.Pick` | deriver/pool.py:137-155 | the pickable address with the lowest derivation index, none exactly when none is pickable |
| `PoolTenancy.ReleaseFrees` | deriver/pool.py:243-260 | the release row by row: freed exactly when reserved, never funded, past its cooldown and without an open invoice |
| `PoolTenancy.ReserveTakesLowest` | deriver/pool.py:127-155 | the reservation in full: the available address with the lowest index is bound, otherwise one is derived, below the ceiling and on an active account |
| `PoolTenancy.BindTakesFree` | deriver/pool.py:213-226 | binding succeeds exactly for a free address without an invoice that never held funds |
| `PoolTenancy.TenancyEndsExactlyWhen` | deriver/pool.py:243-260 | an address leaves its invoice exactly when a release finds that closed and the cooldown over, and is not handed out before |
| `PoolTenancy.OpenInvoiceKeepsItsAddress` | deriver/pool.py:243-260 | over every run an open invoice keeps its address, which is handed out to nobody |
| `PoolSafety.PoolIsBounded` | deriver/pool.py:137-207 | free plus reserved stays within the ceiling; indices are 0 .. next-1 once each; next_index is at most the ceiling plus the addresses ever funded |
| `PoolSafety.IndexIsPeak` | deriver/pool.py:433-473 | with only the fused reserve, next_index is the peak of reserved plus ever funded |
| `PoolSafety.UnpickableMeansNoneFree` | deriver/pool.py:243-260 | an address that is free is always pickable, so deriving happens only when nothing is free |
| `PoolSafety.FundedNeverReturns` | deriver/pool.py:262-273 | once funded, an address is never free or handed out again |
| `PoolSafety.TwoPhasesMakeOne` | deriver/pool.py:358-473 | allocating and then binding is the fused reservation, and the bind never fails |
| `PoolSafety.RunKeeps` | deriver/pool.py:298-530 | the pool invariant holds after every serial run |
| `RateLimiter.TokenBucket.Refill` | notifier/ratelimit.py:98-104 | refills in place for the time since the last update, up to the capacity |
| `RateLimiter.TokenBucket.WaitFor` | notifier/ratelimit.py:106-111 | refills, consumes nothing, and returns the time to one token |
| `RateLimiter.TokenBucket.Take` | notifier/ratelimit.py:113-118 | consumes one token exactly when there is one |
| `RateLimiter.LocalRateLimiter.BucketFor` | notifier/ratelimit.py:157-167 | creates a full bucket on first use and touches no other |
| `RateLimiter.LocalRateLimiter.EvictIdle` | notifier/ratelimit.py:169-178 | past the threshold drops exactly the other buckets that would be full |
| `RateLimiter.LocalRateLimiter.TryAcquire` | notifier/ratelimit.py:180-194 | one pass through the critical section: peek both, take both or neither |
| `RateLimiter.LocalRateLimiter.Acquire` | notifier/ratelimit.py:180-194 | among the attempts of other coroutines the retry loop returns at its first pass that sends, having refused every earlier one |
| `LimiterLocal.TryRefines` | notifier/ratelimit.py:180-194 | one attempt answers as the ideal pair of buckets, and keeps standing for it |
| `LimiterLocal.RunRefines` | notifier/ratelimit.py:121-194 | every run answers as the ideal pair of buckets |
| `LimiterLocal.EvictionIsInvisible` | notifier/ratelimit.py:169-178 | evicting idle buckets changes no later answer |
| `LimiterLocal.EvictsOnlyRefilled` | notifier/ratelimit.py:169-178 | nothing is dropped up to the threshold, and beyond it exactly the other buckets that have had the time to refill |
| `LimiterLocal.BothOrNeither` | notifier/ratelimit.py:180-194 | no call consumes only one of the two tokens |
| `LimiterLocal.LocalWindowBound` | notifier/ratelimit.py:84-194 | the window bound for the in-process limiter |
| `LimiterLocal.LocalSendsExactlyWhen` | notifier/ratelimit.py:84-194 | the exact condition for a send, for the in-process limiter |
| `LimiterLocal.WaitIsExact` | notifier/ratelimit.py:180-194 | if nobody intervenes, trying again sends exactly when the returned wait has passed |
| `LimiterBounds.WindowBound` | notifier/ratelimit.py:84-118 | in every window the ideal pair of buckets sends at most burst + rate * length messages to one chat, and to all chats together |
| `LimiterBounds.SendsExactlyWhen` | notifier/ratelimit.py:84-118 | an attempt sends exactly when no window ending with it would hold more than burst + rate * length messages, to its chat or to all: never too many, and never too few |
| `LimiterRedis.Redis.Eval` | notifier/ratelimit.py:208-249 | the script returns the wait and writes both hashes, or none |
| `LimiterRedis.EvalRefines` | notifier/ratelimit.py:208-249 | takes both tokens exactly when both lazily refilled levels reach one, otherwise writes nothing |
| `LimiterRedis.RunRefines` | notifier/ratelimit.py:208-249 | every run of calls answers as the ideal pair of buckets |
| `LimiterRedis.ExpiredIsFull` | notifier/ratelimit.py:240-247 | by the time a key expires its bucket has refilled |
| `LimiterRedis.LifetimeMeans` | notifier/ratelimit.py:240-247 | a key lives for the time its bucket takes to fill from empty, and one second more |
| `LimiterRedis.ExpiryIsInvisible` | notifier/ratelimit.py:217-247 | removing expired keys changes nothing the script reads, now or later |
| `LimiterRedis.WaitIsExact` | notifier/ratelimit.py:217-238 | the returned wait suffices if nobody intervenes, and no shorter whole number of milliseconds would |
| `LimiterRedis.RedisWindowBound` | notifier/ratelimit.py:208-249 | the window bound for the Redis limiter, in seconds |
| `LimiterRedis.RedisSendsExactlyWhen` | notifier/ratelimit.py:208-249 | the exact condition for a send, for the Redis limiter |

## Left out

- QR penalty scoring: a parameter of the encoder; the eight masks are compared by whatever it returns.
- UTF-8 encoding of the text, and the error for an unknown level: the encoder is modelled from bytes and a level of four.
- The check bits of the format and version words as an error-correcting code: they are those of the standard, but the reader uses the data bits only.
- `/resolve` and other manual credits, `notify_seen_payments`, the anomaly and address-lifecycle passes, and message texts of the settler.
- `revoked_at`, `granted_at` and subscription expiry times, refund notes and audit arguments; audit rows keep action and target.
- The order in which SQL returns payments, and the `LIMIT` of the sweeps: reviews are opened in id order, and a sweep takes any list of invoice ids.
- Rates that are not positive, which the schema excludes and `usd_to_raw` rejects.
- Decimal contexts: all amounts are exact.
- `blocks.status` promotion, provider cross-checks, metrics and native transfers of the walker; of a payment row it keeps the key and the block number. The audit entry for a transfer seen again after a reorg.
- Header parsing: a provider answer is a usable header of the height asked for, an RPC error, or unusable.
- The row contents of the proof and address queues: one queue stands for all three tables.
- `FOR UPDATE SKIP LOCKED`: a run may claim any pending request, and the pool is serial.
- `deriver.address` and the stored address strings; an address is its derivation index. The `swept` status, which no code here writes.
- `RedisRateLimiter`'s fallback to a local limiter when Redis fails: two limiters do not keep one joint bound.
- Sleeping between the passes of `acquire`, and its cap `max_wait`: the times of the passes are given.
- PostgreSQL isolation and connection handling: each transaction is one atomic step.
- The single UPDATE statements that revert payments, revoke entitlements and release addresses are loops over the rows here.
- Convergence from a store that holds a block at height 1 or lower, or that is empty on a chain no longer than `lookback`.
- Per-chain and per-asset settings: confirmation count and finality threshold are part of each invoice's bill, which covers any configuration that does not change during the run.
