# TIP replication, caching and sign-in: a Dafny model

TIP keeps a registry of tags on Solana, replicates it into a Postgres mirror and
answers payment lookups from that mirror through a Redis cache. This project
models the parts of the repository whose correctness depends on more than one
function and proves what they promise. Check everything with
`dafny verify dfyconfig.toml`.

| file | models |
|---|---|
| `TagRules.dfy`, `TagAccounts.dfy` | the tag grammar on both sides, the account layout, the on-chain program, decode-and-verify |
| `Mirror.dfy`, `Replication.dfy` | the indexer's serial writers on the mirror table, and the chain as one ledger per slot |
| `Interleaving.dfy` | the same writers, the API's profile edits, the backfill and manual blocking, one database statement at a time |
| `Resolve.dfy` | concurrent resolves on many API instances: clock, TTLs, lost DELs, single flight |
| `TagsService.dfy` | the tag service and the cache reader over stored bytes, tied to the two machines above |
| `Throttler.dfy` | the rate-limit script, key expiry, the rate bound |
| `EndToEnd.dfy` | the chain, the interleaved writers and the concurrent resolves side by side |
| `Leetspeak.dfy`, `LeetspeakCap.dfy`, `LeetspeakOnes.dfy`, `LeetspeakDoubling.dfy` | the variant generator with its early breaks, what its cap leaves, the profanity gate, and which evasions change nothing |
| `SignInMessage.dfy`, `Nonces.dfy`, `Authentication.dfy` | the sign-in message, both nonce stores, interleaved challenges and verifications |
| `Subscription.dfy` | the reconnect and gap-heal loop |

Code that updates state in place is a class or a loop proved against a
specification function (`Mirror.Indexer`, `TagAccounts.TagRegistry`,
`Throttler.RedisBucket`, the two nonce stores, `AuthService`, `TagsService`, the
Leetspeak loops); concurrent code is a state machine whose steps are single database,
Redis or event-loop operations, with `Run` folding a list of steps. The two are
connected: `Interleaving.RunAlone`, `TagsService.TagsService.Resolve` and
`Authentication.AuthService.Verify` show that a machine left uninterrupted does
what the serial code does, and `EndToEnd` runs the writers and the resolves as one
machine.

## What the code does not do

Five statements one might expect are false of the code. Each has a lemma that shows
how it fails, next to the exact condition under which it holds (the last one but for
names where the cap leaves some of the ones before the doubled run free).

- A sign-in message does not always survive printing and parsing: with the domain
  `Nonce:` the domain line is taken for the nonce line
  (`SignInMessage.DomainCanShadowNonce`). `RoundTripExactly` says exactly which
  fields survive.
- A newer change can be reported stale when another worker creates the row between
  the guarded update and the lookup (`Interleaving.NewerChangeCanBeSkipped`), and lost
  without a report when it does so between the lookup and the create
  (`NewerChangeCanBeLost`; `CreateFailsExactly` says when). A skip is
  always covered by the row if and only if the row existed at the update or the
  chain had not held the tag one slot earlier (`SkipsExactlyOnChain`).
- After a block has settled, a call that joins a lookup which read the mirror
  earlier and has not settled yet can still be answered positively
  (`Resolve.JoinedAnswerCanBeOld`). The block hides the tag from every later call, in
  every race-free continuation, if and only if no such lookup can still end with a
  positive answer (`SettledBlockHidesExactly`).
- An underscore can unblock a name. Every variant has its runs collapsed, so a bad
  term with a doubled letter is found only in the text as it stands
  (`Leetspeak.UnderscoreUnblocks`). `EvasionBlockedExactly` says exactly when an
  evaded name is still blocked.
- Doubling a `1` can change the leetspeak variants (`Leetspeak.DoublingOneMatters`).
  With at most eleven ones it leaves them alone if and only if the run of ones lies
  between two letters `i` or `l`, the same letter on both sides exactly when the run
  is odd; with twelve ones in the run and after it, if and only if the letters around
  the run absorb one more i; with more than twelve there, always
  (`LeetspeakDoubling.DoublingInPlace`). Of the other characters exactly line
  terminators and those above U+FFFF matter when doubled (`Leetspeak.DoublingExactly`).

One disagreement with the documentation:
`apps/indexer/README.md:28` says the indexer never touches the status column, while
`applyChange` sets it to blocked when the gate fails; the model follows the code.

## Assumptions

- Observations are truthful: the bytes are the account's bytes at the observed slot
  (finalized commitment). The mirror results do not assume that observations arrive,
  arrive in order or arrive once.
- Lower-casing and UTF-8 are arbitrary functions outside ASCII; PDA derivation,
  ed25519, base58, dates, JSON and the profanity engine are arbitrary functions, with the
  laws a lemma needs written as its `requires`. PDA derivation need not even be injective.
- A throwing moderation gate reads as a passing one, as `shouldBlockTag` makes it.
- Each database statement and each Redis command is atomic; the mirror table is a
  map, so the unique constraint on the tag holds by construction and a losing `create`
  ends its run.
- Calls that wait for a promise go on in the turn of the event loop in which it
  settles; the staleness bound counts no time in between.
- Clocks do not run backwards. Rate-limit times are whole seconds, nonce times
  milliseconds.

## Model

| member | source | states |
|---|---|---|
| TagRules.NormalizeFixpoints | packages/core/src/normalize.ts:65-96 | whatever is accepted is canonical and normalizes to itself; a raw tag comes back unchanged iff it is canonical |
| TagRules.AsciiNames | packages/core/src/normalize.ts:65-96 | an ASCII raw tag is accepted as `t` iff `t` is the tag without one leading `@`, in lower case, and has 3 to 20 letters, digits or underscores |
| TagRules.RejectedExactly | packages/core/src/normalize.ts:65-93 | each of the five rejection reasons is given iff its own condition on the raw tag holds |
| TagRules.ClientAgreesWithProgram | programs/tip-registry/programs/tip_registry/src/validation.rs:14-25 | the program accepts a tag's UTF-8 bytes iff the client's normalization leaves the tag unchanged |
| TagRules.InvalidExactly | programs/tip-registry/programs/tip_registry/src/validation.rs:14-25 | each of the three validation errors is given iff its own condition on the bytes holds |
| TagAccounts.DecodeTagAccount | packages/core/src/account.ts:112-180 | the imperative decoder, loops and error order included, computes the decoding relation that the next rows characterise |
| TagAccounts.BytesEqual | packages/core/src/account.ts:69-79 | true iff the two buffers are equal |
| TagAccounts.DecodeStored | packages/core/src/account.ts:112-180 | every account the program stores decodes back to its owner, wallet, tag and bump |
| TagAccounts.StoredDecoded | packages/core/src/account.ts:112-172 | every buffer the decoder accepts is, byte for byte, the program's layout of the decoded account with a canonical tag |
| TagAccounts.DecodeExactly | packages/core/src/account.ts:112-180 | decoding gives `a` iff the tag is canonical and the buffer is the layout of `a`: a bijection between accepted buffers and canonical accounts |
| TagAccounts.FailedExactly | packages/core/src/account.ts:112-172 | each of the four decode errors is given iff its own condition on the bytes, at their literal offsets, holds |
| TagAccounts.SerializedParts | programs/tip-registry/programs/tip_registry/src/state.rs:5-22 | which bytes of the layout are the discriminator, owner, wallet, tag, length and bump |
| TagAccounts.TagRegistry.Register | programs/tip-registry/programs/tip_registry/src/instructions/register_tag.rs:7-46 | succeeds iff the tag is valid and its address is free; then the zero-padded account owned by and paying its owner is added |
| TagAccounts.TagRegistry.UpdateWallet | programs/tip-registry/programs/tip_registry/src/instructions/update_wallet.rs:7-23 | succeeds iff the account's own seeds and its owner's signature allow it; then the wallet is the new one and the owner still the signer |
| TagAccounts.TagRegistry.TransferOwnership | programs/tip-registry/programs/tip_registry/src/instructions/transfer_ownership.rs:7-23 | succeeds iff the account's own seeds and its owner's signature allow it; then the owner is the new one and the wallet what it was |
| TagAccounts.ReachableWellFormed | programs/tip-registry/programs/tip_registry/src/instructions/register_tag.rs:7-37 | after every sequence of instructions each account holds the padded canonical tag whose address it sits at |
| TagAccounts.ReachableVerifies | apps/indexer/src/decode-and-verify.ts:25-60 | in every reachable program state each account's bytes verify at its own address, with its own owner, wallet and bump, and at no other address |
| TagAccounts.AuthorizedExactly | programs/tip-registry/programs/tip_registry/src/instructions/transfer_ownership.rs:13-22 | in a reachable ledger the constraints pass iff the signer is the owner: the seeds check never locks an owner out |
| TagAccounts.AccountsStay | programs/tip-registry/programs/tip_registry/src/instructions/update_wallet.rs:12-22 | no run removes an account or changes its tag or bump, and without its owner's signature it changes nothing |
| TagAccounts.RegisteredOnce | programs/tip-registry/programs/tip_registry/src/instructions/register_tag.rs:7-37 | every account of every run was created by a valid registration at its address while that was free |
| TagAccounts.WalletIsLastSet | programs/tip-registry/programs/tip_registry/src/instructions/update_wallet.rs:7-23 | over every run the wallet is that of the last authorized update, whatever else is executed |
| TagAccounts.WalletNeverSet | programs/tip-registry/programs/tip_registry/src/instructions/register_tag.rs:14-19 | a registered account that was never updated pays its registrant |
| TagAccounts.OwnerIsLastSet | programs/tip-registry/programs/tip_registry/src/instructions/transfer_ownership.rs:7-23 | over every run the owner is that of the last authorized transfer, whatever else is executed |
| TagAccounts.OwnerNeverSet | programs/tip-registry/programs/tip_registry/src/instructions/register_tag.rs:14-19 | a registered account that was never transferred is owned by its registrant |
| TagAccounts.OneColumn | programs/tip-registry/programs/tip_registry/src/instructions/update_wallet.rs:7-10 | an update leaves every owner, a transfer every wallet, and either every other account as it was |
| TagAccounts.VerifiesExactly | apps/indexer/src/decode-and-verify.ts:25-60 | bytes verify as a change iff they are the layout of that canonical account and the address is derived from its tag |
| Mirror.Indexer.UpdateMany | apps/indexer/src/apply-change.ts:43-56 | the guarded update changes the row iff its slot is not newer, never clears a block, never touches the profile |
| Mirror.Indexer.ApplyChange | apps/indexer/src/apply-change.ts:35-92 | column by column the new row for a stale, present or absent one (an equal slot is applied), the other rows as they were, the outcome and the issued DEL |
| Mirror.Indexer.AdvanceCursor | apps/indexer/src/cursor.ts:14-28 | the cursor becomes the maximum of itself and the slot, and is created when absent |
| Mirror.Indexer.ProcessAccountObservation | apps/indexer/src/pipeline.ts:16-42 | rejected or stale observations change nothing; others change row, cursor and issue one DEL |
| Mirror.Indexer.Reconcile | apps/indexer/src/reconcile.ts:25-81 | the sweep is the fold of its observations; its counters are the numbers applied and not applied, with one DEL per applied one |
| Mirror.Indexer.BlockActive | apps/indexer/src/backfill-moderation.ts:44-47 | blocks the row iff it exists and is active and says which |
| Mirror.Indexer.BackfillModerationGate | apps/indexer/src/backfill-moderation.ts:27-64 | in whatever order rows are visited, each row changes in its status only and is blocked iff it was or fails the gate, each newly blocked tag gets one DEL, and the counters are exact |
| Mirror.AppliedAllIsNewest | apps/indexer/src/apply-change.ts:41-91 | after any list of changes a tag's row is its highest-slot change, over the row it started from |
| Mirror.Converges | apps/indexer/src/apply-change.ts:41-91 | lists with the same members, in any order and multiplicity, leave the same table, from any starting table |
| Mirror.BackfillCommutes | apps/indexer/src/backfill-moderation.ts:32-59 | backfilling before or after a change gives the same table |
| Mirror.BackfillIdempotent | apps/indexer/src/backfill-moderation.ts:32-59 | a second backfill changes nothing and finds nothing to block |
| Replication.TagsStay | programs/tip-registry/programs/tip_registry/src/instructions/register_tag.rs:27-34 | a tag registered at one slot is at the same address in every later slot |
| Replication.TruthfulVerifies | apps/indexer/src/decode-and-verify.ts:25-60 | every truthful observation verifies, as the account's state at its slot |
| Replication.ReplicationRefines | apps/indexer/src/pipeline.ts:25-41 | under any delivery of truthful observations every row is the chain's account at the row's slot, and the cursor is the highest row slot |
| Replication.ProcessedCursor | apps/indexer/src/pipeline.ts:37-40 | one observation, truthful or not, keeps the cursor equal to the highest slot in the table |
| Replication.SlotsNeverDecrease | apps/indexer/src/apply-change.ts:53-75 | over any observations a row stays, its slot and the cursor never decrease, a block stays, the profile is untouched |
| Replication.SweepReaches | apps/indexer/src/reconcile.ts:53-73 | after a complete sweep at slot S, whatever follows, every tag on chain at S has a row at S or later |
| Replication.SweptRowIsCurrent | apps/indexer/src/reconcile.ts:53-73 | if a tag has not changed since a swept slot, its row equals the chain's latest account from then on |
| Replication.ProcessedRows | apps/indexer/src/pipeline.ts:25-42 | the pipeline's table is the fold of the verified changes, rejected observations leaving no trace |
| Replication.TruthfulConsistent | apps/indexer/src/decode-and-verify.ts:41-59 | truthful changes with equal tag and slot are equal |
| Replication.SameEventsSameMirror | apps/indexer/src/pipeline.ts:25-42 | delivery order and repetition show neither in the mirror nor in the cursor |
| Interleaving.AfterGrows | apps/indexer/src/apply-change.ts:53-91 | no statement of any writer loses a row, lowers a slot, lifts a block or moves the cursor back |
| Interleaving.InterleavedRowsTrue | apps/indexer/src/apply-change.ts:53-91 | under every interleaving and crash each row is one true change, never a mixture, and no profile text fails the profanity check |
| Interleaving.InterleavedMirrors | apps/indexer/src/scheduler.ts:6-26 | with overlapping sweeps and streams every row is still the chain's account at the row's slot |
| Interleaving.CompletedReaches | apps/indexer/src/apply-change.ts:53-91 | an uncrashed run leaves the row at its slot or later, whatever interleaves, if the tag had a row or no older true change exists |
| Interleaving.OverlappedSweepReaches | apps/indexer/src/reconcile.ts:53-73 | a sweep of a whole snapshot, overlapped by any other writers, brings every tag on chain at its slot to that slot or later, if each tag had a row or was registered in that very slot |
| Interleaving.ReportedStaysApplied | apps/indexer/src/apply-change.ts:58-62 | once a run has reported created or updated at slot s, the row is at s or later in every later world |
| Interleaving.CursorNeverAhead | apps/indexer/src/cursor.ts:14-28 | with crashes and interleaved cursor statements the cursor never passes the newest row |
| Interleaving.RunAlone | apps/indexer/src/apply-change.ts:41-91 | a run's statements without interference equal the serial upsert followed by the serial cursor advance |
| Interleaving.SkippedIsStale | apps/indexer/src/apply-change.ts:64-75 | if the row existed when the guarded update missed it, the change is stale and the lookup says so, whatever ran in between |
| Interleaving.NewerChangeCanBeSkipped | apps/indexer/src/apply-change.ts:53-75 | from any world in which the row is absent when the guarded update misses, one other run with an older change makes the lookup report the newer change stale |
| Interleaving.CreateFailsExactly | apps/indexer/src/apply-change.ts:88-91 | a create ends its run without writing or reporting iff the tag is taken by then |
| Interleaving.NewerChangeCanBeLost | apps/indexer/src/apply-change.ts:64-88 | from any world after a lookup that found no row, one other run with an older change makes the newer one end unreported |
| Interleaving.SkipsExactly | apps/indexer/src/apply-change.ts:53-75 | whatever true changes run in between, a skip is covered by the row iff the row existed at the update or no older true change of the tag exists |
| Interleaving.SkipsExactlyOnChain | apps/indexer/src/apply-change.ts:53-75 | when changes are observed from the chain: iff the row existed or the chain had not held the tag one slot before the change |
| Interleaving.OnChainProjection | apps/api/src/tags/tags.service.ts:242-256 | on-chain columns, cursor and indexer reports equal those of the indexer's statements alone |
| Interleaving.ProfileProjection | apps/indexer/src/apply-change.ts:43-56 | profile columns equal those the API's edits alone would give |
| Interleaving.FieldIsLastGiven | apps/api/src/tags/tags.service.ts:242-254 | a profile field holds what the last edit that provided it said, null included |
| Interleaving.FieldNeverGiven | apps/api/src/tags/tags.service.ts:242-254 | a field no edit provided is still null |
| Interleaving.EditAlone | apps/api/src/tags/tags.service.ts:219-256 | an uninterrupted edit is carried out iff the row is active, the caller owns it and no given text is bad, a null never being bad |
| Interleaving.BlockedExactly | apps/indexer/src/apply-change.ts:41-51 | over every run a row is blocked iff some statement blocked it: by hand, a backfill, or an indexer write of a tag that failed the gate |
| Interleaving.BackfillAlone | apps/indexer/src/backfill-moderation.ts:38-47 | an uninterrupted backfill blocks exactly the rows it has read and changes nothing else |
| Interleaving.EditsByOwners | apps/api/src/tags/tags.service.ts:219-256 | every profile edit carried out was made by one who owned the tag on chain at some slot |
| Resolve.SingleFlight | apps/api/src/tags/tags.service.ts:95-104 | at most one unsettled lookup per key and instance, in every interleaving |
| Resolve.CallsShareOutcomes | apps/api/src/tags/tags.service.ts:95-104 | every joined call ends with exactly its lookup's outcome, and the map is empty when no call is under way |
| Resolve.StalenessBound | apps/api/src/tags/tags.service.ts:107-157 | with lost DELs and racing lookups, a cached answer is what the mirror said at a read at most the read-to-store time plus its TTL old, the negative one for not-found and chain-derived answers; a joined one at most the read-to-store and the settling time; so it misses no write older than that |
| Resolve.CoherentWhenQuiet | apps/indexer/src/redis-cache-invalidator.ts:35-43 | in race-free runs, whenever no DEL is pending the entry is the current view |
| Resolve.SettledBlockHides | apps/api/src/tags/tags.service.ts:107-136 | after a block has settled the cache is never positive again, and a later call is answered positively only by joining a lookup that had read the mirror before the block |
| Resolve.SettledBlockHidesExactly | apps/api/src/tags/tags.service.ts:95-136 | in every race-free continuation every later call is answered not-found iff no lookup under way that read the mirror before the block can still end with a positive answer |
| Resolve.JoinedAnswerCanBeOld | apps/api/src/tags/tags.service.ts:95-98 | a concrete race-free run in which such a call is answered positively |
| Resolve.ServedAlone | apps/api/src/tags/tags.service.ts:82-157 | an uninterrupted call answers from the cache, or else the mirror, or else the chain, caches with the right TTL and leaves the map as it was |
| Resolve.ServedIsCurrent | apps/api/src/tags/tags.service.ts:82-157 | at a quiet moment of a race-free run an uninterrupted call answers with the current view, whatever Redis lost |
| TagsService.KeyDetermines | packages/core/src/cache-key.ts:15-17 | two tags share a cache key iff they are equal, and every such key passes the reader's key test |
| TagsService.RedisCacheReader.Get | apps/api/src/tags/redis-cache-reader.ts:47-65 | the decoded value, not-found for the sentinel, a miss for other keys, expired or unreadable values and errors |
| TagsService.RedisCacheReader.Set | apps/api/src/tags/redis-cache-reader.ts:67-79 | later reads answer the value until it expires, sentinel and JSON never confused; other keys and failures read as before |
| TagsService.RedisCacheReader.Delete | apps/api/src/tags/redis-cache-reader.ts:81-95 | later reads miss; other keys and failures read as before |
| TagsService.TagsService.Resolve | apps/api/src/tags/tags.service.ts:82-105 | over stored bytes, the serial code waits for the lookup the concurrent machine waits for, and otherwise answers and leaves cache and map as the machine's uninterrupted visit does |
| TagsService.TagsService.ResolveUncached | apps/api/src/tags/tags.service.ts:107-157 | each field of the answer from its own column of an active row, not-found for a blocked one, the bare wallet from the chain for an absent one; later reads of the key answer it for the positive or the negative time to live |
| TagsService.TagsService.UpdateIdentity | apps/api/src/tags/tags.service.ts:213-276 | not-found, forbidden or refused exactly when the row or text says so; otherwise provided fields are written, the identity is returned column by column, and the key then reads as a miss |
| TagsService.WritersRespectViews | apps/indexer/src/apply-change.ts:43-51 | all statements of all writers change a tag's view only as the cache machine's writes may: no disappearance, no unblocking |
| EndToEnd.AnswersWereOnChain | apps/api/src/tags/tags.service.ts:82-157 | under all interleavings, crashes, races and lost DELs no call is answered with a wallet the chain did not hold for the tag at some slot |
| EndToEnd.AnswersKeepUp | apps/api/src/tags/tags.service.ts:82-157 | within the time limits a mirrored answer carries the chain's wallet at a slot no lower than that of any row written before the staleness bound |
| EndToEnd.AnswersShowEdits | apps/api/src/tags/tags.service.ts:138-150 | a mirrored answer shows displayName, avatar and preferredToken as the edits carried out by the write it rests on left them |
| Throttler.RedisBucket.Increment | apps/api/src/redis/throttler-increment.lua.ts:41-99 | the statement-by-statement script computes the transition and the reply that the next rows pin down on whole runs of replies |
| Throttler.FirstReplyOpens | apps/api/src/redis/throttler-increment.lua.ts:55-60 | the first reply opens a window: one hit, the whole ttl, blocked iff the limit is zero |
| Throttler.EachReplyFollows | apps/api/src/redis/throttler-increment.lua.ts:49-99 | in every run, expired keys dropped or not, each reply is determined by the one before and the time between: a live block stands, a live window counts one more and blocks iff it was full, anything else opens a window |
| Throttler.OpenWindowCounts | apps/api/src/redis/throttler-increment.lua.ts:68-80 | within an open window each call adds one hit, the block comes exactly at the limit and the window's end does not move |
| Throttler.NeverRefused | apps/api/src/redis/throttler-increment.lua.ts:55-80 | a key with at most `limit` calls in any stretch of the window's length is never refused |
| Throttler.KeyExpiresWithReply | apps/api/src/redis/throttler-increment.lua.ts:84-91 | the key is kept until the later of the window's and the block's end that the reply announces |
| Throttler.ExpiryUnobservable | apps/api/src/redis/throttler-increment.lua.ts:84-91 | a store that drops expired keys whenever it likes and one that never does give the same replies, for every ttl and block length |
| Throttler.AlwaysWithinLimit | apps/api/src/redis/throttler-increment.lua.ts:68-80 | over every run, hits stay within the limit while open and equal limit + 1 while blocked |
| Throttler.RateBound | apps/api/src/redis/throttler-increment.lua.ts:55-82 | in every half-open interval of length L at most limit * (ceil(L / min(ttl, block)) + 1) replies let the caller through |
| Throttler.BlockServed | apps/api/src/redis/throttler-increment.lua.ts:62-80 | once a block of s seconds is announced, every call less than s seconds later is refused and adds no hit |
| Leetspeak.PushOptions | packages/moderation/src/leetspeak.ts:55-60 | the innermost loop with its break |
| Leetspeak.PushVariants | packages/moderation/src/leetspeak.ts:53-65 | the two inner loops compute the first 4096 elements of the one-character extension |
| Leetspeak.ExpandVariants | packages/moderation/src/leetspeak.ts:50-66 | the loops with early breaks compute exactly the first 4096 elements of the untruncated product |
| Leetspeak.ExpansionsCount | packages/moderation/src/leetspeak.ts:17-28 | the product has 2^k elements, k the number of `1` characters |
| Leetspeak.ExpansionsExact | packages/moderation/src/leetspeak.ts:51-66 | a string is in the product iff each character is an option of the corresponding one |
| Leetspeak.ExpansionsSorted | packages/moderation/src/leetspeak.ts:54-60 | the product is in strict lexicographic order |
| Leetspeak.DigitsRead | packages/moderation/src/leetspeak.ts:17-28 | the ten digits read as `oizeasgtbg` or `olzeasgtbg` and nothing else |
| Leetspeak.OthersRead | packages/moderation/src/leetspeak.ts:52 | every other character stands for itself |
| Leetspeak.ExtendTruncated | packages/moderation/src/leetspeak.ts:57-63 | truncating early changes nothing in the first 4096 |
| Leetspeak.NothingTruncated | packages/moderation/src/leetspeak.ts:35-66 | with at most twelve `1` characters nothing is lost |
| Leetspeak.CollapseSnoc | packages/moderation/src/leetspeak.ts:68 | collapsing is a left-to-right pass: a further character extends the last run or starts one |
| Leetspeak.DistinctMembers | packages/moderation/src/leetspeak.ts:69 | removing duplicates loses and adds no variant |
| Leetspeak.DistinctOnce | packages/moderation/src/leetspeak.ts:69 | no variant is listed twice |
| Leetspeak.GenerateProfanityCheckVariants | packages/moderation/src/leetspeak.ts:47-70 | the whole generator equals the collapsed, de-duplicated prefix of the product |
| Leetspeak.IsBlockedName | packages/moderation/src/profanity.ts:42-60 | blocked iff not allow-listed and the name or some variant is bad |
| Leetspeak.CheckVariants | packages/moderation/src/profanity.ts:53-57 | the loop with its early return finds a bad variant iff there is one |
| Leetspeak.GateExhaustive | packages/moderation/src/profanity.ts:42-60 | with at most twelve `1` characters every reading of the digits that is bad after collapsing blocks the name |
| Leetspeak.TextInvariance | packages/moderation/src/leetspeak.ts:47-69 | any chain of inserted underscores and doubled characters leaves the variants of any lower-case text unchanged, truncated or not |
| Leetspeak.EvasionInvariance | packages/moderation/src/leetspeak.ts:47-69 | the same of raw names, before lower-casing, whenever their characters are lower-cased one by one |
| Leetspeak.AsciiLowersByCharacter | packages/moderation/src/leetspeak.ts:48 | ASCII names are such names |
| Leetspeak.EvasionBlockedExactly | packages/moderation/src/profanity.ts:42-60 | after any such evasion a name is blocked iff it is not allow-listed and it is bad as it now stands or had a bad variant before |
| Leetspeak.RunsOnlyAsTheyStand | packages/moderation/src/leetspeak.ts:68 | content that is bad only for a run of equal letters blocks a name iff it is in the lower-cased text itself |
| Leetspeak.UnderscoreUnblocks | packages/moderation/src/profanity.ts:49-57 | the concrete name that an underscore unblocks |
| LeetspeakCap.CapFixes | packages/moderation/src/leetspeak.ts:35-63 | the cap exactly: what is left of the product are all expansions with every `1` but the last twelve read as i |
| LeetspeakCap.VariantsExactly | packages/moderation/src/leetspeak.ts:47-70 | a string is a variant iff it is such an expansion, collapsed, for any number of ones |
| LeetspeakCap.GateExactly | packages/moderation/src/profanity.ts:42-60 | for any number of ones, blocked iff not allow-listed and bad as it stands or in some such reading after collapsing |
| Leetspeak.DoublingExactly | packages/moderation/src/leetspeak.ts:68 | of the characters other than `1`, doubling changes nothing iff a regular expression's dot matches the character as one unit |
| Leetspeak.DoublingOneMatters | packages/moderation/src/leetspeak.ts:17-19 | `11` has the variant `il`, `1` has not |
| LeetspeakOnes.DoublingOneExactly | packages/moderation/src/leetspeak.ts:50-69 | with at most eleven ones, one more `1` in a whole run of k leaves the variant list unchanged iff the run lies between two letters of i and l, equal exactly when k is odd |
| LeetspeakDoubling.DoublingExactlyWithCap | packages/moderation/src/leetspeak.ts:35-69 | the same below the cap; with exactly twelve ones in the run and after it, iff the text before ends in i, or in l with an even run and an i after it; with more than twelve, always |
| LeetspeakDoubling.DoublingInPlace | packages/moderation/src/leetspeak.ts:47-69 | doubling a `1` where it stands in any lower-case text, underscores included: the run around it is found, and the variant list is unchanged iff that condition holds |
| SignInMessage.SplitJoin | apps/api/src/auth/message.ts:20-29 | splitting undoes joining of lines without newlines |
| SignInMessage.JoinSplit | apps/api/src/auth/message.ts:51 | joining undoes splitting of any message |
| SignInMessage.ParsedIsPrintable | apps/api/src/auth/message.ts:50-75 | whatever parses has printable fields |
| SignInMessage.RoundTripExactly | apps/api/src/auth/message.ts:19-75 | parse(build(f)) = f iff the fields are printable and neither the domain line nor the key line shadows a labelled line |
| SignInMessage.MessageLines | apps/api/src/auth/message.ts:19-30 | a message splits into exactly its eight lines, the statement and the blank ones included |
| SignInMessage.ParsesExactly | apps/api/src/auth/message.ts:50-75 | a message parses to given fields iff its first two lines are the domain line and the key and each labelled line, wherever it stands, is the first with its label |
| SignInMessage.ChallengeRoundTrip | apps/api/src/auth/auth.service.ts:30-36 | a challenge is read back whole iff its domain line starts with none of the three labels |
| SignInMessage.DomainCanShadowNonce | apps/api/src/auth/message.ts:53-61 | the concrete message that is not read back |
| Nonces.RedisNonceStore.Put | apps/api/src/auth/redis-nonce-store.ts:45-53 | stores the expiry under the pair's key with that expiry |
| Nonces.RedisNonceStore.Take | apps/api/src/auth/redis-nonce-store.ts:55-68 | reads and removes in one command; answers iff the key is live |
| Nonces.InMemoryNonceStore.Put | apps/api/src/auth/nonce-store.ts:43-46 | stores the record under the pair's key |
| Nonces.InMemoryNonceStore.Take | apps/api/src/auth/nonce-store.ts:48-63 | removes always, answers iff the record is present and not expired |
| Nonces.KeyDetermines | apps/api/src/auth/nonce-store.ts:28-30 | a colon-free pair shares its key with no other pair |
| Nonces.RedisKeyDetermines | apps/api/src/auth/redis-nonce-store.ts:41-43 | prefixed Redis keys are equal iff the in-memory keys are |
| Nonces.RedisRefinesInMemory | apps/api/src/auth/redis-nonce-store.ts:45-68 | Redis, reaping expired keys whenever it likes, answers every request sequence as the in-memory store does |
| Authentication.TokensAreEarned | apps/api/src/auth/auth.service.ts:43-83 | in every interleaving each token answers a signed message that had not expired when its verification began and whose nonce was put for its key and consumed within the configured lifetime, and no two tokens share a put |
| Authentication.EveryRunBegan | apps/api/src/auth/auth.service.ts:44-56 | every verification under way began with a message that reads, names its key and nonce and had not expired at that moment |
| Authentication.TokensNeverOutnumberPuts | apps/api/src/auth/auth.service.ts:61-83 | tokens for a pair never outnumber its puts |
| Authentication.PairsDoNotInterfere | apps/api/src/auth/auth.service.ts:21-64 | no request for another pair changes whether a nonce can be redeemed |
| Authentication.HonestSignIn | apps/api/src/auth/auth.service.ts:21-83 | from any world, with a domain line that starts with no label, a challenge signed and returned in time earns its token and spends its nonce |
| Authentication.VerifiedAlone | apps/api/src/auth/auth.service.ts:43-83 | an uninterrupted verification gives a token iff the message reads, names the key and has not expired, the nonce is live and the signature verifies; once the message passes the nonce is spent whatever the signature |
| Authentication.AuthService.Challenge | apps/api/src/auth/auth.service.ts:21-41 | the serial code over the Redis store answers the message and leaves the nonces as the machine's challenge step does; a bad address changes nothing |
| Authentication.AuthService.Verify | apps/api/src/auth/auth.service.ts:43-83 | the serial code's token and the nonces it leaves are those of the machine's verification without interruption |
| Subscription.RunAttempt | apps/indexer/src/subscription.ts:43-71 | the events of one attempt: sweep before consuming except on the first connection |
| Subscription.RunLiveSubscription | apps/indexer/src/subscription.ts:38-87 | wherever the abort comes, the loop's events are the log whose pauses are given in closed form by the number of failures |
| Subscription.ExponentStep | apps/indexer/src/subscription.ts:51-86 | the exponent grows by one per failure and a success resets it |
| Subscription.DelayDoubles | apps/indexer/src/subscription.ts:85-86 | pauses double up to 30 s, start at 1 s and restart there after a success |
| Subscription.LogHealed | apps/indexer/src/subscription.ts:53-71 | everything consumed comes after its connection's subscription and its completed sweep, or on the first connection |
| Subscription.OneUnsweptConnection | apps/indexer/src/subscription.ts:53-71 | for every pattern of failures at most one connection, the first, consumes without a completed sweep of its own |
| Subscription.EveryNotificationConsumed | apps/indexer/src/subscription.ts:43-71 | for every attempt one subscription iff it connects, one sweep iff it connects later than another and the sweep completes, and every delivered notification consumed once iff it is the first or its sweep completed |
| Subscription.SleepsBetween | apps/indexer/src/subscription.ts:81-86 | the loop sleeps exactly once between two attempts, for the delay due then, and once more if the abort comes asleep |

## Left out

- Interleaving.InterleavedMirrors: only safety; a skipped newer change is why no convergence is claimed for interleaved runs.
- Throttler.RateBound: needs ttl and block of at least one second, since a window of no length limits nothing; it counts replies of the script, not requests the fail-open storage wrapper lets through when Redis is down.
- Leetspeak.EvasionInvariance: names with U+0130 or U+03A3 are left out, whose lower-casing is not one character for one or depends on the neighbours; TextInvariance covers every lower-case text.
- LeetspeakDoubling.DoublingInPlace: with twelve or more ones in all but fewer than twelve in the run and after it, the doubled `1` also fixes one before the run, and nothing is claimed.
- Resolve.SettledBlockHides: only later calls are covered; calls already waiting when the block settles share their lookup's earlier reading.
- TagsService.TagsService.Resolve: the tag and the links of a response, which are functions of the tag, are not modelled; the Resolve machine has one cache key, since keys do not interact.
- Resolve.StalenessBound: D is the sum of two limits the code does not enforce, from the mirror read to the store and from the store to the settling of the promise.
- JavaScript strings are UTF-16 and Dafny's are sequences of characters: lone surrogates are not modelled, and lengths agree on every string the tag rules accept.
- Error messages, log lines, the address carried along in a verified change, row ids and timestamps.
- Authentication.AuthService.Challenge: the configured nonce lifetime is positive, as Redis demands of an expiry, and the store is reachable.
- Authentication.AuthService.Verify: the store is reachable; a failing Redis command is a step of the interleaved machine, where it ends the verification without a token.
- JWT contents and expiry, randomness of nonces, and the HTTP layer.
- Rent, fees and the payer of a registration, and Anchor's own account checks beyond discriminator, seeds and owner.
- Moderation by hand appears as a statement that blocks a row; the source has no such endpoint and no DEL for it, so the Resolve machine does not treat it as a write.
- The startup order of the indexer: nothing is claimed about events between the startup sweep and the first subscription.
- Search, identity and availability endpoints, transaction builders, the landing and docs apps and the SDK are not modelled.
