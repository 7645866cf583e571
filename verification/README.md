# Attribution platform: verified model

A Dafny model of the platform that attributes agent purchases to the publishers whose search
results led to them, with proofs of what it promises. One signed assertion per product leaves
the search service, is presented once with a payment, and becomes one settlement whose
commission is split between the publisher and the platform.

What the modules cover:

- `Protocol`, `ProtocolInvariant`, `ProtocolTheorems`: every interleaving of any number of
  settlement calls over the four tables, the facilitator's nonce ledger and its transfers. Each
  transaction or remote call is one step; any call may crash between steps, lose a request or a
  reply, stop waiting for a settle request that still arrives later, or have a commit that takes
  effect without being acknowledged. One inductive invariant
  gives single use of assertions, the double-entry books, and conservation of value; no value
  moves without its payer's signature, and every refusal has the cause it names.
- `Store`, `SettlementStore`, `Facilitator`, `SettlementService`: the transactions and the
  facilitator as values, and the classes that carry them out, each method proved to do exactly
  what its value says. `SettlementService.Settle` is one run of the step machine.
- `Commission`, `Doubles`, `Decimal`: the split in 64-bit integers and in double precision
  (IEEE 754, section 4.3.1), and amounts through decimal text.
- `Assertion`, `Json`, `Utf8`, `Fraud`: the signed bytes, both verifiers, and the simulator's attacks
  at the gateway and at the settlement service.
- `Merchant`, `Reports`, `Rates`, `Detail`: the purchase handler, the dashboard's aggregates
  against the ledger, the commission rate end to end, and the cut of a rejection's detail.
- `Documents`, `OpenSearch`, `Pipeline`, `Postgres`, `Ingest`: the rebuild that readers never see
  half done, and what the new index says of the catalog loaded before it.
- `Latency`, `Runner`: the latency window and the simulator's counters.

Four places where the code does not keep what is said of it, each stated exactly:

- The rebuild is invisible to readers only when the new index name is not already served
  (`Pipeline.RebuildIndex`); otherwise the delete that precedes the creation is seen.
- The runner's counters balance exactly when as many attempts ended in an unprintable fulfilment
  as in an error whose reason could not be read (`Runner.CountersBalance`, and
  `Runner.UnprintableIsCountedTwice` for one run that fails). A fulfilment is unprintable when it
  is null, or when a field the event line prints is an object JavaScript cannot convert.
- The runner checks that each attack is refused for the reason `EXPECTED_REJECTION` names. Its
  attacks, when they alter anything, stop at the gateway (`Fraud.FraudStopsAtTheEdge`), whose
  reasons are other words, so the two never agree in any mode (`Fraud.ExpectationNeverMet`). Posted straight to the settlement service an attack would be
  refused as expected in every mode but the expired one, because the signature is checked first
  (`Fraud.ExpectationMetBySettlement`).
- The facilitator's ledger takes a nonce once as text, while the signed message holds its bytes.
  One signed message pays once exactly as far as its nonce has a single spelling
  (`Facilitator.MessageSettlesAgain`): written in full, without a letter, and not ending in 0
  (`Facilitator.OneSpelling`); `Facilitator.RespelledPaysTwice` is a payment that moves twice.

`dafny verify dfyconfig.toml` checks the project.

## Model

| member | source | states |
|---|---|---|
| ProtocolInvariant.StepKeepsInv | internal/settlement/service.go:77-154 | Any step of any call, of the search service, of a direct payer or of an administrator keeps the invariant that ties claims, rows, ledger, nonces, transfers and every call's place |
| ProtocolInvariant.BeginKeeps | internal/settlement/service.go:104-116 | Begin keeps it however its transaction ends, including a commit nobody hears of |
| ProtocolInvariant.PayKeeps | internal/settlement/service.go:118-133 | The facilitator call keeps it with the request lost, the reply lost, the request left on its way, or all delivered |
| ProtocolInvariant.DeliverKeeps | internal/settlement/x402.go:117-129 | A settle request that arrives after its caller gave up keeps it, whatever the row has become |
| ProtocolInvariant.ConfirmKeeps | internal/settlement/service.go:135-141 | Confirm keeps it however its transaction ends |
| ProtocolInvariant.FailKeeps | internal/settlement/service.go:118-133 | Marking a settlement failed keeps it whether or not the statement runs |
| ProtocolInvariant.RunKeepsInv | internal/settlement/service.go:77-154 | Every run of interleaved, crashing calls keeps the invariant |
| ProtocolInvariant.ReachableInv | internal/settlement/service.go:77-154 | Every state reachable from empty tables satisfies the invariant |
| ProtocolTheorems.ReachableTables | internal/settlement/store.go:98-214 | In every reachable state claims and settlements are in bijection by assertion, confirmed rows have exactly their own three entries and others none, and entries sum to zero per settlement and overall |
| ProtocolTheorems.RunGoesForward | internal/settlement/store.go:156-214 | Over any run a status only moves from pending to confirmed or failed and then stays, and claims, entries, nonces and transfers are never taken back |
| ProtocolTheorems.ClaimedOnce | internal/settlement/store.go:104-118 | After one call claims an assertion, whatever happens between, another call with it is refused at Begin and changes nothing |
| ProtocolTheorems.OneSettleCallPerAssertion | internal/settlement/service.go:110-133 | At most one facilitator settle call is ever issued per assertion, and only for a row committed and still pending; a late arrival issues none |
| ProtocolTheorems.ErrorBeforeClaimChangesNothing | internal/settlement/service.go:77-116 | Over any run, a call that never gets past Begin changes no claim, settlement, ledger entry, nonce or transfer by any of its steps, and no row at all but the journal of its refusal |
| ProtocolTheorems.TransfersFollowCalls | internal/settlement/x402.go:117-129 | Value moves for a settlement at most once: as its one settle call is made, its row pending, or as that call arrives late |
| ProtocolTheorems.TransfersAreSigned | facilitator/src/verify.ts:113-129 | In every reachable state each transfer is one its payer signed, checked in full when it moved, and a settlement's is the one its own request's payment authorizes |
| ProtocolTheorems.SettleCallMoves | internal/settlement/service.go:118-133 | What a settle call moves and what its caller learns, under every network fault |
| ProtocolTheorems.LateArrivalMoves | internal/settlement/x402.go:117-129 | A request arriving late moves value exactly when it would have in time: nothing armed, the payment in order, the nonce unused |
| ProtocolTheorems.GivenUpNeverConfirms | internal/settlement/service.go:118-133 | A settlement whose caller stopped waiting is never confirmed by any later step, even if the request then arrives and pays |
| ProtocolTheorems.TransferPaysGross | merchant/src/handler.ts:189-214 | The transfer of a merchant-submitted settlement moves exactly 10,000 times its row's gross cents |
| ProtocolTheorems.TransferPaysRequirement | facilitator/src/verify.ts:94-103 | The transfer of any settlement moves exactly what its payment requirements ask |
| ProtocolTheorems.ConfirmedHaveOwnTransfers | facilitator/src/handler.ts:217-245 | Confirmed settlements map one to one into transfers and consumed nonces, and carry their transfer's hash |
| ProtocolTheorems.ValueConserved | internal/settlement/service.go:118-141 | All that moved for merchant-submitted settlements, late arrivals included, is 10,000 times the confirmed gross plus exactly what moved for rows still pending or marked failed |
| ProtocolTheorems.SuccessIsPaid | internal/settlement/service.go:141-154 | A caller told of success has its own settlement confirmed, at its own price and split as told, paid by a transfer with the hash told; payer and network are its payment's |
| ProtocolTheorems.RowsSplitAtOwnRate | internal/settlement/service.go:98-99 | In every reachable state each settlement is at the lower of the signed and the listed rate and, in the safe range of prices, its commission is price times rate over 10,000 rounded down, of which the platform takes 30% rounded down and the publisher the rest |
| ProtocolTheorems.ResultsSplitAtOwnRate | internal/settlement/service.go:143-153 | The split every successful caller is told is that of its own price at the rate it is told |
| ProtocolTheorems.PricesExactly | internal/settlement/service.go:77-96 | A request prices exactly when its assertion verifies and the listing found is in stock at its price and currency |
| ProtocolTheorems.RefusalsHaveCause | internal/settlement/service.go:77-141 | In any interleaving, when a step makes a call fail, what the failure names was so at that moment, and the failure stands until it is told |
| ProtocolTheorems.JournalWrites | internal/settlement/handler.go:199-248 | A refusal that is not the platform's own leaves one row naming its publisher, assertion, merchant and failure, an empty name as NULL and the detail cut to size |
| SettlementService.SettlementService.Settle | internal/settlement/service.go:77-154 | The method's effect on tables and facilitator, and its answer, are those of the step machine run with one call, under every failure |
| SettlementService.SettlementService.HandleSettle | internal/settlement/handler.go:199-248 | The same with the journalling of a refusal that is not the platform's own: one row with the caller's publisher, assertion, merchant and reason |
| SettlementService.SettlesExactly | internal/settlement/service.go:77-154 | Undisturbed, a request settles exactly when it prices, its payment verifies, its assertion is unclaimed, the rows it names exist, its split passes the table's checks, the payer's window is still open and the nonce unused |
| SettlementService.SafePricesBalance | internal/settlement/service.go:98-102 | In the safe range a request passes the table's checks exactly when its price is positive and its rate between 0 and 10,000 |
| SettlementService.SettleLeavesJournal | internal/settlement/handler.go:199-248 | Settling itself journals nothing |
| Store.BeginKeepsConsistent | internal/settlement/store.go:98-150 | Begin keeps claims and rows in bijection and the ledger matched to the rows, however its transaction ends |
| Store.BeginErrorChangesNothing | internal/settlement/store.go:120-150 | When Begin errs nothing stays, a refused second insert included, unless the commit took effect unseen; reuse is reported exactly when the claim's insert finds the assertion taken |
| Store.ConfirmKeepsConsistent | internal/settlement/store.go:156-197 | Confirm keeps the ledger matched to the rows: the status and its three entries stay together however the transaction ends |
| Store.FailKeepsConsistent | internal/settlement/store.go:203-214 | Fail keeps claims, rows and ledger consistent whether or not the statement runs |
| Store.EntriesSumToZero | internal/settlement/store.go:176-187 | The three entries of any settlement sum to zero |
| SettlementStore.SettlementStore.LookupListing | internal/settlement/store.go:72-90 | A listing of the product and merchant, or none exactly when there is none |
| SettlementStore.SettlementStore.Begin | internal/settlement/store.go:98-150 | When it reports success, reuse or an error, exactly what it then wrote, a NULL search request included, and that it keeps consistency |
| SettlementStore.SettlementStore.Confirm | internal/settlement/store.go:156-197 | A pending row gets status, hash and time together with its three entries, by account, amount and currency, or nothing changes; consistency is kept |
| SettlementStore.SettlementStore.Fail | internal/settlement/store.go:203-214 | The one row, if pending, is marked failed and nothing else changes; consistency is kept |
| SettlementStore.SettlementStore.RecordRejection | internal/settlement/store.go:232-249 | Appends the rejection with its detail cut and empty fields as NULL, or nothing |
| Detail.TruncateDetail | internal/settlement/store.go:259-270 | The byte loop cuts at the last rune start within 500 bytes and appends the marker; short input is unchanged |
| Detail.FitsIsLongest | internal/settlement/store.go:259-270 | The prefix kept is the longest that fits, at most three bytes short |
| Detail.StepBackFindsBoundary | internal/settlement/store.go:264-267 | On UTF-8 text (RFC 3629, section 4) the loop stops exactly between two characters |
| Detail.TruncateDetailOnText | internal/settlement/store.go:259-270 | On any text the result is valid UTF-8 of at most 503 bytes: the text, or its longest prefix within 500 bytes and the marker |
| Facilitator.NonceLedger.Claim | facilitator/src/handler.ts:78-98 | A nonce is granted exactly once and stays consumed |
| Facilitator.Handler.Arm | facilitator/src/handler.ts:152-166 | Arming a fault changes the fault and nothing else |
| Facilitator.Handler.Verify | facilitator/src/handler.ts:173-215 | Verified exactly when nothing is armed against it and the payment pays what is asked, in the one asset and network, to the payee, inside its window and signed by its sender, who is the payer reported; unavailable exactly when armed so, malformed, or named after an inherited property |
| Facilitator.Handler.Settle | facilitator/src/handler.ts:173-245 | Settled exactly on such a payment with an unused nonce; then that nonce is consumed and that transfer recorded, and otherwise nothing changes; consumed nonces keep matching transfers |
| Facilitator.VerifiesExactly | facilitator/src/verify.ts:65-132 | A payment verifies exactly when it pays what is asked and its sender signed that transfer, and the payer is the sender; it breaks the check only by an inherited network name |
| Facilitator.ReasonIsTrue | facilitator/src/verify.ts:70-129 | Whatever reason a payment is turned down for is true of it |
| Facilitator.SameAddressIgnoresCase | facilitator/src/verify.ts:61-63 | Two addresses are taken as one exactly when they differ at most in the case of their letters |
| Facilitator.SettleOncePerNonce | facilitator/src/handler.ts:217-245 | A transfer is made exactly when the answer is success, only for a payable request with an unused nonce text, and nonce texts and transfers stay in bijection |
| Facilitator.MessageSettlesAgain | facilitator/src/handler.ts:78-98 | A settled message settles again exactly when its window is open and its nonce is written in a way the ledger has not seen |
| Facilitator.OneSpelling | facilitator/src/verify.ts:113-125 | A nonce that stands for 32 bytes can be written in one way only exactly when it is 0x and 64 digits, none of them a letter and the last not 0 |
| Facilitator.RespelledPaysTwice | facilitator/src/handler.ts:217-245 | After a settled payment the same signed message, one letter of its nonce in the other case, settles again and moves the same value, while the window is open and that text is new |
| Facilitator.PayableChargesRequirement | facilitator/src/verify.ts:94-111 | A payment that verifies is for exactly the required amount, to the required payee, inside the half-open window signed |
| Facilitator.VerifiedThenSettles | facilitator/src/handler.ts:173-245 | A verified payment settles later exactly when settling is not faulted, the window is open and the nonce unused |
| Commission.WordSizeSuffices | internal/attribution/assertion.go:178-187 | The int64 product is exact for every rate exactly when gross is at most (2^63-1)/10,000 |
| Commission.NoOverflow | internal/attribution/assertion.go:178-187 | While the product fits, the machine result is the exact split |
| Commission.SplitShape | internal/attribution/assertion.go:178-187 | 0 <= fee <= publisher share <= commission <= gross, and the publisher gets the ceiling of 70% |
| Commission.SplitAddsUp | internal/attribution/assertion.go:178-187 | The parts sum to the commission on every input, overflow included |
| Commission.CommissionMonotone | internal/attribution/assertion.go:178-187 | Commission and publisher share grow with gross and rate |
| Commission.TruncationShortfall | internal/attribution/assertion.go:178-187 | Over n settlements at one rate the summed commissions fall short of the commission on the total by fewer than n cents |
| Commission.TwinSplits | packages/types/src/index.ts:105-117 | The double-precision split equals the integer one whenever gross times rate is below 2^53 |
| Doubles.FloorOfRoundedQuotient | packages/types/src/index.ts:109-110 | Under any round-to-nearest, flooring the rounded quotient by 10,000 is integer division below 2^53 |
| Doubles.RoundingExists | packages/types/src/index.ts:109-110 | Every number in range has a nearest double, so what is shown of every round-to-nearest is shown of something |
| Doubles.RoundingMonotone | internal/search/handler.go:246-260 | Rounding to nearest preserves order |
| Decimal.BigIntOfDecimal | packages/types/src/eip3009.ts:114-139 | Decimal text reads as the number its digits denote |
| Decimal.BigIntOfDigits | merchant/src/config.ts:68-74 | Printing an amount and reading it back gives the amount |
| Decimal.PlaceValue | packages/types/src/eip3009.ts:114-139 | A text of digits in a radix is read by place value, and nothing else is read in it |
| Decimal.BigIntOfRadix | packages/types/src/eip3009.ts:119-122 | After 0x, 0o or 0b in either case the digits are of that radix |
| Json.StringRoundTrip | internal/attribution/assertion.go:57-84 | An escaped JSON string (RFC 8259, section 7) reads back as itself in either language, whatever follows |
| Json.EscapesOnlyWhatItMust | internal/attribution/assertion.go:57-84 | Only the quote, the backslash, controls and, in Go, the two separators are escaped, each in its shortest form and in lower-case digits |
| Json.SeparatorsInOutput | packages/types/src/index.ts:123-135 | Output holds U+2028 or U+2029 only in TypeScript, and exactly when the input does |
| Utf8.EncodeInjective | packages/types/src/verify.ts:49-55 | Different texts have different UTF-8 bytes |
| Utf8.EncodeCharReads | packages/types/src/verify.ts:49-55 | A character's number is read back from its bytes (RFC 3629, section 3), all but the first of which continue it |
| Assertion.CanonicalBytesInjective | internal/attribution/assertion.go:57-84 | Equal canonical bytes, from either language, mean equality of all seven fields |
| Assertion.CanonicalIsObject | internal/attribution/assertion.go:47-84 | What is signed is one JSON object of the seven members, in order and without white space |
| Assertion.CanonicalTwins | packages/types/src/index.ts:123-135 | For rates a JavaScript number holds exactly, Go and TypeScript sign the same bytes exactly when no field holds U+2028 or U+2029 |
| Assertion.SignatureCoversFields | internal/attribution/assertion.go:138-155 | An ideal signature is accepted for exactly the fields it was minted for |
| Assertion.VerifyAcceptsExactlyMinted | internal/attribution/assertion.go:138-167 | Verify accepts exactly the minted fields with their own signature strictly before expiry |
| Assertion.VerdictsExactly | internal/attribution/assertion.go:138-167 | Go finds the signature malformed, wrong or expired each exactly when it is, in that order |
| Assertion.VerdictsExactlyTs | packages/types/src/verify.ts:78-135 | And so does TypeScript, which wants 64 bytes and fields it spells as Go does |
| Assertion.MintedFields | internal/attribution/assertion.go:97-125 | What is minted holds each argument in its own field, reads in both languages as issued that second and expiring one hour later, and carries the signature made for exactly these fields |
| Assertion.MintThenVerify | internal/attribution/assertion.go:97-125 | Mint succeeds exactly for rates in range; what it makes verifies up to its whole-second expiry and then no more |
| Assertion.TwinVerdicts | packages/types/src/verify.ts:78-135 | The nanosecond and millisecond verifiers agree on every separator-free assertion, and on a genuine one only then |
| Assertion.MilliExpiry | packages/types/src/verify.ts:119-134 | Truncating the clock to milliseconds never changes a whole-second expiry |
| Fraud.FraudStopsAtTheEdge | gateway/src/handler.ts:245-266 | At the gateway an attack on a minted assertion is refused over its signature, for a stated reason, exactly when it alters anything |
| Fraud.ExpectationNeverMet | simulator/src/runner.ts:203-215 | No reason the gateway has is one the runner expects of an attack; with FraudStopsAtTheEdge, an attack that alters anything is refused but never as expected |
| Fraud.FraudIsRefused | internal/attribution/assertion.go:138-167 | Posted straight to the settlement service an attack on a genuine assertion is refused over its signature exactly when it alters anything |
| Fraud.ExpectationMetBySettlement | simulator/src/fraud.ts:24-30 | There the reason is the one expected in every mode but the expired one |
| Reports.DashboardMatchesLedger | internal/settlement/reports.go:160-220 | In every reachable state a publisher's earnings, settlement count and platform fees are those of the ledger |
| Reports.BooksClose | internal/settlement/reports.go:103-155 | Earnings over all publishers, platform revenue and merchants' payables sum to zero |
| Reports.LedgerTotal | internal/settlement/store.go:176-187 | Any total over the ledger is the total over the rows that posted it |
| Reports.ConsumedAreAccountedFor | internal/settlement/reports.go:196-203 | A publisher's consumed assertions are its confirmed, failed and pending settlements and nothing else |
| Reports.BlockedAreRefusals | internal/settlement/reports.go:199-203 | Over any run a publisher's blocked count is how often a refusal of its assertions was journalled or reported, the platform's own failures left out |
| Reports.GrossIsValueMoved | internal/settlement/reports.go:181-191 | 10,000 atomic units for each cent of a publisher's gross is what the transfers of its confirmed settlements moved, all merchant-submitted |
| Reports.ChainIsComplete | internal/settlement/reports.go:260-323 | The chain of every settlement reads through to its claim and exactly its entries |
| Merchant.ForwardedPaysThePrice | merchant/src/handler.ts:189-214 | A forwarded purchase was authorized for exactly 10,000 units per cent of the price, to the merchant's own address |
| Merchant.ForwardsExactly | merchant/src/handler.ts:86-214 | A purchase is forwarded exactly when it is in order, the assertion naming the product bought included, and with that listing's merchant, price and currency, the assertion and payment given and the price asked; a challenge asks for exactly that |
| Merchant.AnswersAreJustified | merchant/src/handler.ts:86-206 | The status and reason of every purchase turned away are true of it |
| Merchant.ForwardedIsAccepted | merchant/src/handler.ts:159-214 | The settlement service accepts what the merchant forwarded, and prices it exactly when the row it looks up is in stock at the same price and currency |
| Rates.MintAssertions | internal/search/handler.go:122-145 | One assertion per product in order, each naming its own id, the publisher, that product, the search and the product's best rate, with the hour it holds and its signature; none exactly when some rate is out of range |
| Rates.MintStepSigns | internal/attribution/assertion.go:97-125 | In a run a mint in range signs exactly the fields it was asked for, and nothing else ever signs |
| Rates.BestRateCoversOffers | internal/ingest/documents.go:191-193 | The indexed rate of a product is at least every one of its offers' |
| Rates.RateChain | internal/settlement/service.go:65-99 | The settled rate never exceeds the signed or the listed one, and equals the chosen merchant's listed rate unless that rose since indexing |
| Rates.SettlementsAreAttributed | internal/settlement/service.go:77-116 | Every settlement's assertion has exactly minted fields, was unexpired when priced, and names an in-stock listing at the recorded price; the row names the publisher, search, product, merchant, network, price and currency of its own request |
| Documents.SortedIsContiguous | internal/ingest/documents.go:60-77 | Ordering by product id puts each product's rows together |
| Documents.OnePassGroups | internal/ingest/documents.go:126-197 | One pass over grouped rows is a group-by: one document per product in order, with exactly its rows as offers and the right roll-ups |
| Documents.Assembler.Flush | internal/ingest/documents.go:101-111 | A flush sends the waiting batch once or keeps it, and counts what was sent |
| Documents.Assembler.CloseCurrent | internal/ingest/documents.go:113-124 | The open document joins the batch, which is sent when full |
| Documents.Assembler.Take | internal/ingest/documents.go:143-196 | One row extends the open document or opens the next |
| Documents.Stream | internal/ingest/documents.go:82-208 | Batches sent hold exactly the pass's documents, all full but the last; on failure they hold its first documents and the cursor or the callback is to blame, neither of which can be on success; the count is what was sent |
| Documents.CountIsProducts | internal/ingest/documents.go:212-221 | The distinct count is the number of products the group-by lists |
| Documents.StreamMeetsCount | internal/ingest/pipeline.go:136-154 | A complete pass makes as many documents as the count expects |
| OpenSearch.RetryUnderPressure | internal/ingest/opensearch.go:465-485 | At most eight attempts, all but the last shed, with total sleep base times (2^(tries-1) - 1) |
| OpenSearch.VerdictsExactly | internal/ingest/opensearch.go:465-485 | Success, giving up on a lasting error, giving up on the eighth attempt shed, and cancellation, each exactly when it happens |
| OpenSearch.RetriedAnswers | internal/ingest/opensearch.go:494-524 | A bulk answer is retried exactly when the request was refused under pressure or the first item refused was, with a 429; it counts as done exactly without errors |
| OpenSearch.ReplayIsHarmless | internal/ingest/opensearch.go:423-450 | Replaying a batch over any part of it already applied gives what one clean pass gives |
| OpenSearch.LastWriteWins | internal/ingest/opensearch.go:423-450 | A product holds the last item that took effect for it |
| OpenSearch.SuccessAppliesBatch | internal/ingest/opensearch.go:494-524 | Whatever rejected attempts applied, success leaves the index overridden by the whole batch |
| OpenSearch.Embedder.Embed | internal/ingest/opensearch.go:280-361 | One vector per text in input order, from requests of at most fifty texts that carry each text once; it fails exactly when some answer is not whole |
| OpenSearch.Cluster.CreateVersionedIndex | internal/ingest/opensearch.go:381-408 | Deletes what bore the name, then creates it empty; nothing else changes in any state on the way, and it succeeds exactly when both calls do |
| OpenSearch.Cluster.BulkIndex | internal/ingest/opensearch.go:423-450 | Each attempt is one state that touches only this index; success leaves it overridden by the batch |
| OpenSearch.Cluster.SwapAlias | internal/ingest/opensearch.go:575-600 | The alias moves in one step, to the new index alone exactly when the read of it was right |
| OpenSearch.Cluster.DeleteIndex | internal/ingest/opensearch.go:625-628 | Removes one index and its alias entry, and reports a missing one |
| OpenSearch.DeleteIsInvisible | internal/ingest/opensearch.go:395-404 | Deleting an index first is invisible exactly when the alias does not serve it |
| Pipeline.IndexBatches | internal/ingest/pipeline.go:154-179 | Batches the callback took, over an empty index, leave exactly their documents, and only that index is touched; whatever lands of any batch lands with the vector of its own text |
| Pipeline.BuildIndex | internal/ingest/pipeline.go:131-206 | The new index is built where no reader looks, and passes only when it is as large as Postgres says |
| Pipeline.Promote | internal/ingest/pipeline.go:208-235 | The swap serves the new index untouched, and dropping the retired ones never drops it |
| Pipeline.RebuildIndex | internal/ingest/pipeline.go:119-228 | Every state of the rebuild, wherever it stops, serves all of the old data or the complete new index, exactly when the name was not served or is never deleted; success, certain when every call goes through and impossible when one made once is not answered, serves one index with one document per expected product under the vector of its own text |
| Pipeline.CompleteDescribesCatalog | internal/ingest/pipeline.go:197-206 | A complete index has one document per product with a listing, describing exactly its rows |
| Ingest.LiveFeedIsIndexed | internal/ingest/documents.go:60-77 | A complete index over what was read of a freshly loaded catalog has one document per product of the feed, with exactly its listings as offers |
| Ingest.Run | internal/ingest/pipeline.go:56-240 | Readers of Postgres see all of the old catalog or all of the feed; the search side is touched only once the feed is live; on success, certain for an acceptable feed when every call is answered, the alias serves one index that describes it, each document under the vector of its own text |
| Postgres.BuildOne | internal/ingest/postgres.go:346-376 | The statements of one partition go through exactly when its rows meet the checks and keys and the index names are new; the table then holds exactly its share |
| Postgres.SwapOne | internal/ingest/postgres.go:388-407 | The five statements of one partition go through exactly when its replacement can be attached, and what they leave |
| Postgres.UniqueByPartition | internal/ingest/postgres.go:362-363 | Keys that hold the merchant are unique overall exactly when they are in every partition |
| Postgres.AcceptableMeans | internal/ingest/postgres.go:307-376 | A feed is acceptable exactly when there is one, its products and merchants are known, prices and rates in range, no merchant lists an id or a sku twice, and its stamp is new |
| Postgres.Database.ValidateStaging | internal/ingest/postgres.go:307-334 | Passes exactly when staging is non-empty, as large as COPY said, and free of orphans |
| Postgres.Database.BuildReplacementPartitions | internal/ingest/postgres.go:346-376 | Builds all eight or fails, with nothing that serves changed in any state |
| Postgres.Database.SwapPartitions | internal/ingest/postgres.go:381-410 | Either nothing changes or all eight partitions move at once; it succeeds exactly when every statement and the commit go through and every replacement can be attached |
| Postgres.Database.DropRetiredPartitions | internal/ingest/postgres.go:415-424 | Retired tables go, every other table stays, and it succeeds exactly when each statement does |
| Postgres.Database.LoadListings | internal/ingest/postgres.go:114-168 | Every state shows the whole old or the whole new catalog; it succeeds exactly when nothing outside goes wrong and the feed is non-empty, free of orphans, checked, uniquely keyed and freshly stamped |
| Postgres.NewCatalog | internal/ingest/postgres.go:378-410 | After the swap the live table is exactly the staged rows as a multiset, each in the one partition its hash names, and the retired tables hold the complete previous generation |
| Latency.WindowNext | internal/search/handler.go:200-214 | Overwriting one slot is what one more observation does to the window |
| Latency.WindowHolds | internal/search/handler.go:200-214 | Which observations the window holds: all up to the capacity, then the first beside the last c-1, and from 2c on exactly the last c |
| Latency.LatencyRecorder.Observe | internal/search/handler.go:200-214 | The samples stay the window of everything observed |
| Latency.LatencyRecorder.TakeSnapshot | internal/search/handler.go:224-244 | p50 <= p95 <= p99 <= max; each percentile is the window's sample at the floor of that share of the way up, and max its largest |
| Latency.IndexMonotone | internal/search/handler.go:246-260 | The double-precision index is in range without its clamps and grows with the share |
| Latency.ShareIndex | internal/search/handler.go:251-259 | The p95 and p99 indices are exactly the floors of those shares although neither is a binary fraction |
| Doubles.GapBelow | internal/search/handler.go:251-251 | No double lies closer below an integer than one part in 2^53 of it |
| Runner.CountersBalance | simulator/src/runner.ts:147-224 | In every interleaving, started and unconfigured attempts are the settled, blocked, failed and flying ones exactly when unprintable fulfilments and unreadable errors are equally many; the tally by reason lacks exactly the failures that record none |
| Runner.UnprintableIsCountedTwice | simulator/src/runner.ts:194-198 | One honest purchase whose fulfilment cannot be printed, a null for one, is started once and counted as settled and as failed |
| Runner.RegularCountersBalance | simulator/src/runner.ts:185-219 | With printable fulfilments and readable reasons nothing is counted twice or left out |
| Runner.FraudNeverSettles | simulator/src/runner.ts:185-197 | When every attempt is an attack nothing is counted as settled |
| Runner.CountersCount | simulator/src/runner.ts:147-224 | In every interleaving started, settled, blocked and failed are the attempts begun, the honest purchases, the attacks refused and the rest, counted from the events alone, and each reason has been met as often as it is tallied |
| Runner.AcceptedFraudIsFailure | simulator/src/runner.ts:185-192 | An accepted attack is one failure, recorded under its mode |
| Runner.ReasonsAreNamed | simulator/src/runner.ts:227-235 | A recorded reason is the one in the body without its white space, the status where that is blank or missing, never blank itself |
| Runner.Runner.Start | simulator/src/runner.ts:147-159 | The beginning of an attempt updates the counters as the tally says |
| Runner.Runner.End | simulator/src/runner.ts:166-201 | The end of an attempt updates the counters as the tally says |
| Runner.Runner.HandleFailure | simulator/src/runner.ts:203-220 | A failure is blocked or failed by its attempt, and recorded once |

## Left out

- Signatures are ideal: accepted on exactly the bytes the key signed with exactly the signature it made. Ed25519, EIP-712 recovery and the transaction hash are arguments.
- Base64 and RFC 3339 (section 5.6) decoding are assumed to invert encoding on what the platform writes; nothing is claimed about malformed base64 being read alike in Go and TypeScript.
- `isExpired` (packages/types/src/index.ts:119-121), the comparison `verifyAssertion` already makes.
- HTTP, environment loading, shutdown, timeouts and connection pools: a remote call works, fails, or loses its reply.
- Address comparison lower-cases ASCII letters only; the addresses compared are hexadecimal.
- SQL isolation below the level of a transaction, locks, WAL and the settlement tables' secondary indexes; a transaction is one step.
- The `reversed` status, which the schema declares and nothing writes.
- Average commission, the lists of recent settlements and rejections, and search counts in the dashboard: single-table reads.
- ProtocolTheorems.ValueConserved: is about merchant-submitted requests, because a payment made directly at the facilitator, or a settlement another caller requests, need not match the row's gross; `ProtocolTheorems.TransferPaysRequirement` covers all.
- Documents.Stream: reads the count after the last flush, as internal/ingest/loader_test.go:295 expects, because Go leaves the order of `emitted` and `flush()` in one return statement open (internal/ingest/documents.go:207). The batch buffer the source reuses is a value here, so a callback that kept its slice is not covered.
- Pipeline.RebuildIndex: streams its batches against a verdict per batch and applies their effects on the index in the same order afterwards, because the cluster's answers do not depend on its state; and it assumes that an error whose text mentions 404, which the code takes for a missing alias, is right (`OpenSearch.Cluster.SwapAlias` says what happens when it is not).
- CSV parsing and `coerce`: a feed is the rows COPY delivers or a failure. `updated_at` takes its default and is not modelled. The reference tables' upsert is left out.
- Model registration, query building, ranking, and what numbers a vector holds: only which text each vector is for.
- Latency.LatencyRecorder.TakeSnapshot: sorts by insertion where the source calls `sort.Slice`; only order and contents matter.
- The runner's loops, `#active`, `lastEvent` and the random choices; a reason that names a property every JavaScript object inherits.
- Detail.TruncateDetailOnText: does not claim that only short text comes back unchanged, because a text of 501 to 503 bytes that ends in the marker can too.
- Assertion.CanonicalTwins: is about rates up to 2^53, because beyond that a JavaScript number is not the integer it was read from; `Assertion.TwinVerdicts` covers every rate, none of those being ever signed.
- Assertion.CanonicalBytesInjective: takes TypeScript's bytes for such rates only, for the same reason.
- Facilitator.MessageSettlesAgain: compares messages with addresses as text, because how a library checks the letter case of an address is its own affair.
- Facilitator.OneSpelling: takes the reading of a `bytes32` text from viem, which is not part of this model: two digits a byte, rounded up, after 0x, one byte a character otherwise, padded on the right, in either case.
- Latency.ShareIndex: is about windows of at most 2^40 samples; the recorder holds 10,000.
- What the gateway does besides checking a purchase's assertion, the PHP dashboard, the catalog generator and the browser code: thin beside the rest.
