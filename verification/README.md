# Sharpline: wagers, ledger, sessions and read model, verified

A Dafny model of the parts of Sharpline (a sports book in Go) whose correctness
spans several functions or a whole run, with proofs of what they keep.

| files | what they model |
|---|---|
| `Money`, `Radix`, `MoneyText` | int64 amounts with every wrap written out; the printer and the hand-written parser |
| `Ids`, `Legs`, `Wagers`, `WagerRuns` | the ticket, its placement checks, its transitions, and every run of them |
| `Combinations`, `RoundRobins` | the odometer that enumerates k-subsets, and the tickets built from it |
| `Ledgers`, `Postings`, `Books` | double entry, the derived balances, and the equations that tie them to the wagers over every run |
| `SessionTables`, `SessionChains`, `SessionStore`, `SessionRuns`, `SessionOutcomes` | refresh-token rotation: the store's statements, the atomic contract, every interleaving of its read, write and revocation, and each answer row by row |
| `Totp`, `SecondFactors`, `EnrolmentService` | one-time codes, the replay guard, and the calls that spend codes |
| `Strings`, `Base64`, `Cursors`, `Boards` | the page cursor and keyset paging over a table that changes between pages |
| `Phc` | the stored password hash as text |
| `Catalogue` | the batched market tree and the comparison grid |

Conventions. A Go error return is `None` (or `false`, or an outcome); error text and
error classes are not distinguished. Instants are integers of nanoseconds. Odds,
lines and teaser points are reals. Code that loops over variables or updates fields
is a `method` or a `class`, proved against a specification function; the laws are
then proved about that function.

Two decisions shape the model of the book. Placing a wager and posting its stake,
and closing a wager and posting its settlement, are each one operation that takes
effect whole or not at all. And a settlement is posted exactly when a wager leaves a
status that holds escrow, so settling a closed wager again posts nothing.

## Where the code and its comments disagree

The code is followed; each entry names the lemma that shows it.

- `internal/domain/wager.go:310` says a settled ticket cannot be settled again at
  another amount. The status table admits won to won and cashed out to cashed out,
  and the amount is overwritten: `WagerRuns.SettledTwiceAtDifferentAmounts` (one
  input), `WagerRuns.ReturnRewrittenExactly` (exactly which calls). The book's house
  and cash equations then hold up to the amounts rewritten (`Books.BookEquations`),
  are kept by exactly the other operations (`Books.HouseKeptExactly`), and are off by
  0.50 after a concrete run (`Books.RewrittenReturnOpensGap`).
- `internal/domain/wager.go:692-694` says a tease in the wrong direction is caught.
  Magnitudes are compared: placement accepts a ticket exactly when it accepts it with
  any leg's tease mirrored (`WagerRuns.TeaserIgnoresDirection`).
- `internal/domain/wager.go:644-674` does not compare leg identifiers. Placement only
  looks whether there is one (`WagerRuns.LegIdentifiersUnchecked`), so a ticket with a
  repeated identifier is placed and no run grades the later leg
  (`WagerRuns.RepeatedIdentifierPlaced`). Some run moves a leg exactly when the ticket
  is running, the leg is ungraded and no earlier leg carries its identifier
  (`WagerRuns.LegMovesExactly`).
- `internal/domain/wager.go:1123-1125` expects a round robin's tickets to be accepted
  by the wager constructor. Teased legs are not refused there, and then the tickets
  are: `RoundRobins.TeasedLegsSinkTickets`.
- `internal/auth/service.go:513-515` says the guard's memory is strictly longer than
  a code's usefulness. The service and the guard read the clock separately, and one-time
  use holds over every run exactly while the guard's reading trails the service's by at
  most `SecondFactors.Slack`: `SecondFactors.OneTimeUseWithinSlack`, for every
  configuration. With a whole-second period a clock read once is good exactly up to a
  skew of one (`SecondFactors.OneTimeUseExactly`), and at a skew of one, the default,
  that slack is zero: a guard reading one nanosecond later already admits a second use
  (`SecondFactors.NanosecondTooLate`, `SecondFactors.DefaultTooLate`). The failing run
  is `SecondFactors.ReplayAccepted`, with codes that validate both times in
  `SecondFactors.ReplayValidates`.
- `internal/auth/password.go:448` says decoding is strict on every field.
  `Phc.DecodesExactly` says what each field must be. A text that decodes is the one
  that is written exactly when the version is the bare `v=19`, the costs are in the
  order m, t, p without leading zeros, and salt and digest carry neither line breaks nor
  spare bits (`Phc.WrittenExactly`). The version field may otherwise hold blanks, a plus
  sign, zeros, and any tail that does not start with a digit (`Phc.VersionExactly`);
  `Phc.VersionJunkAccepted` is one such text.
- `internal/auth/enrolment.go:272-274` says starting an enrolment is refused while a
  row exists; only a confirmed row refuses it (`EnrolmentService.Service.BeginEnrolment`).
- `internal/httpapi/board.go:51` defaults the window to the current time plus a
  horizon, and the window is part of the fingerprint, so a walk that relies on the
  default has its cursor refused once the clock moves: `Boards.OtherWindowRefused`
  with `Boards.BoardPartsInjective`. The paging theorems are for one explicit window.

## Model

| member | source | states |
|---|---|---|
| Money.Add | internal/domain/money.go:236-245 | the exact sum when it is within ±(2^53−1), an error otherwise, for all int64 operands although the machine sum may wrap |
| Money.Sub | internal/domain/money.go:248-257 | the exact difference or an error, likewise |
| Money.SignBitIdentity | internal/domain/money.go:232-240 | on 64-bit words the combined sign-bit test is the two sign comparisons used in `Add` |
| Money.Neg | internal/domain/money.go:261-270 | the exact negation within the safe range, an error elsewhere including the minimum |
| Money.Magnitude | internal/domain/money.go:203-208 | the absolute value as a uint64, for every int64 |
| Money.Split | internal/domain/money.go:190-199 | sign, major and minor units put every int64 back together |
| Money.MulInt | internal/domain/money.go:291-308 | the exact product or an error for safe receivers, zero for zero factors, and the unsigned product never wraps |
| Money.DivMod | internal/domain/money.go:326-338 | q·k + r = m with r smaller than k and on m's side of zero; fails exactly on k = 0, or on k = −1 outside the safe range |
| Money.MulFloat | internal/domain/money.go:352-395 | succeeds exactly when receiver and rounded product are safe; off by less than a unit, by at most half in the nearest modes |
| Money.RoundingKeepsFloor | internal/domain/money.go:352-395 | rounding a product never takes it below an integer it was at or above |
| Money.RoundsExactly | internal/domain/money.go:369-380 | each mode gives the one integer its rule allows: less than a unit toward zero, or at most half away with a tie going outward or to the even neighbour |
| Money.SumMoney | internal/domain/money.go:510-520 | the total when no partial sum leaves the safe range, an error otherwise |
| Money.PrefixSafeExactly | internal/domain/money.go:510-520 | the sum is asked to stay in range at every prefix, and nothing else |
| Radix.ValueOfFormat | internal/domain/money.go:407-413 | a number's digits in any base read back as the number |
| Radix.FormatOfValue | internal/auth/password.go:507-545 | digits without a leading zero are the ones their number is written with |
| Radix.SignedRoundTrip | internal/httpapi/cursor.go:111-142 | a signed decimal prints and parses back over the whole int64 range |
| MoneyText.RenderedLiteral | internal/domain/money.go:407-421 | every int64 prints as a literal of the documented grammar that denotes it, with two decimals, no leading zeros and no plus |
| MoneyText.MoneyTextRoundTrip | internal/domain/money.go:407-504 | what is printed reads back as the amount when it is in range, and as an error exactly when it is not |
| MoneyText.ParseMoney | internal/domain/money.go:441-504 | succeeds exactly on a text of the grammar whose amount is in range, with that amount, and no uint64 wraps on any input |
| MoneyText.AmountIsDigits | internal/domain/money.go:422-440 | what a literal denotes is its digits read through, the fraction filled up to two; only a minus negates |
| MoneyText.OnlyCandidate | internal/domain/money.go:422-440 | the grammar is unambiguous: a text spells at most one literal |
| MoneyText.ReadsFunctional | internal/domain/money.go:422-440 | so the right answer for a text is unique |
| Combinations.CombinationIndexes | internal/domain/wager.go:1255-1278 | the in-place odometer terminates with exactly the reference enumeration, and nothing for k < 1 or k > n |
| Combinations.Turn | internal/domain/wager.go:1273-1276 | one turn advances the pivot and packs everything to its right |
| Combinations.OdometerStep | internal/domain/wager.go:1266-1276 | turning at the rightmost index below its ceiling gives the next entry; no such index means the list is finished |
| Combinations.LexSound | internal/domain/wager.go:1248-1249 | every entry is a strictly increasing k-subset |
| Combinations.LexComplete | internal/domain/wager.go:1248-1249 | every strictly increasing k-subset is an entry |
| Combinations.LexSorted | internal/domain/wager.go:1248-1249 | entries are in strictly increasing dictionary order, so none is repeated |
| Combinations.ImmediateSuccessor | internal/domain/wager.go:1251-1254 | no k-subset lies strictly between two neighbouring entries |
| Combinations.LexCount | internal/domain/wager.go:1251-1254 | there are C(n, k) entries, by Pascal's rule |
| RoundRobins.NewRoundRobin | internal/domain/wager.go:1116-1167 | accepted exactly on the stated conditions, and records what was asked for, the sizes increasing with the same members |
| RoundRobins.PlanComplete | internal/domain/wager.go:1215-1232 | every choice of positions of a stated size is a ticket |
| RoundRobins.PlanSorted | internal/domain/wager.go:1215-1232 | tickets come by increasing size, and within a size in dictionary order |
| RoundRobins.PlanDistinct | internal/domain/wager.go:1215-1232 | no two tickets take the same positions |
| RoundRobins.EveryCombinationIsATicket | internal/domain/wager.go:1215-1232 | for every choice of positions of a stated size some ticket backs exactly those legs in that order |
| RoundRobins.TicketCount | internal/domain/wager.go:1201-1213 | the tickets number Σ C(n, k) over the sizes, at most 2^n − n − 1 and so at most 1013 |
| RoundRobins.CombinationCount | internal/domain/wager.go:1207-1213 | the counted total is the number of tickets |
| RoundRobins.ExpandCombinations | internal/domain/wager.go:1220-1232 | the nested loops build exactly the tickets, in order |
| RoundRobins.TicketsDistinct | internal/domain/wager.go:1220-1232 | no two tickets back the same set of selections |
| RoundRobins.TicketLegsOk | internal/domain/wager.go:1123-1129 | every ticket passes the leg-set and leg-count rules of a wager |
| RoundRobins.TeasedLegsSinkTickets | internal/domain/wager.go:1126-1136 | all tickets pass the teaser rule exactly when no leg of the round robin is teased |
| RoundRobins.TicketAccepted | internal/domain/wager.go:1078-1081 | with no teased leg, only identifier, price, rounding rule and amounts can refuse a ticket |
| RoundRobins.TotalStake | internal/domain/wager.go:1240-1246 | the total is the tickets' stakes added up, which is the stake times Σ C(n, k); it fails exactly when the stake or the total leaves the safe range |
| RoundRobins.TicketsBelong | internal/domain/wager.go:1116-1246 | from the parameters to the wagers: what an accepted round robin costs, and that every ticket placed from it is its owner's, names it, and carries its legs, stake and instant |
| Legs.NewLeg | internal/domain/leg.go:283-332 | exactly when a leg is accepted, and every field of the pending leg that comes out |
| Legs.Leg.WithStatus | internal/domain/leg.go:469-489 | succeeds exactly on legal edges at a set instant; regrading to the same status keeps the original grading instant |
| WagerRuns.TeasedLegs | internal/domain/leg.go:444-460 | after any run every leg of a teaser ticket is one that teasing its booking gives, as far from the booked line as the ticket was sold at, and no leg of another ticket is teased |
| Wagers.ValidateLegSet | internal/domain/wager.go:644-674 | the scan with two seen sets accepts exactly 1 to 25 pending legs with no selection and no market twice |
| Wagers.PayoutCoversStake | internal/domain/wager.go:612-615 | odds above one never round to a payout below the stake, so that refusal is never reached |
| Wagers.NewWager | internal/domain/wager.go:572-639 | placement succeeds exactly on acceptable terms and records them, legs and instant included; the ticket satisfies the run invariant |
| Wagers.PlacementByKind | internal/domain/wager.go:572-760 | which terms are acceptable, kind by kind, down to the fields: leg counts, prices, teased lines, parents and ranges |
| Wagers.FirstLeg | internal/domain/wager.go:953-956 | grading looks up the first leg carrying the identifier |
| WagerRuns.StampsInOrder | internal/domain/wager.go:911-924 | over any run the instants of the accepted calls never go back, and the ticket shows the last of them |
| WagerRuns.StepKeeps | internal/domain/wager.go:926-1066 | every transition keeps the invariant: returned amount by outcome, net return, closed exactly when returned, ordered instants |
| WagerRuns.ReachableTicket | internal/domain/wager.go:476-491 | so does every run from placement, and nothing the ticket was placed on changes |
| WagerRuns.ClosingAccepts | internal/domain/wager.go:985-1066 | exactly which settlements and cash-outs succeed, by outcome and amount, all they record, and that nothing else of the ticket moves |
| WagerRuns.OpeningAccepts | internal/domain/wager.go:926-940 | exactly when a ticket is marked open, and that only its status and instant move; settling takes no outcome but the graded four |
| WagerRuns.GradingRecords | internal/domain/wager.go:949-967 | exactly when grading the first leg of a name succeeds; the leg takes the outcome asked for, is stamped the first time only, and nothing else but the ticket's instant moves |
| WagerRuns.UnknownLegRefused | internal/domain/wager.go:953-956 | a leg the ticket does not have is never graded |
| WagerRuns.LegMovesExactly | internal/domain/wager.go:949-967 | some run, and some single call, changes a leg exactly when the ticket still runs, the leg is ungraded and no earlier leg carries its identifier |
| WagerRuns.TerminalRun | internal/domain/wager.go:308-316 | a closed ticket keeps its status and legs in every run, and its return when lost, void or pushed |
| WagerRuns.ReturnRewrittenExactly | internal/domain/wager.go:457-474 | exactly which calls change the return of a closed ticket |
| WagerRuns.AmountsFinal | internal/domain/wager.go:308-316 | a run without such a call leaves every amount of a closed ticket alone |
| WagerRuns.SettledTwiceAtDifferentAmounts | internal/domain/wager.go:985-997 | a concrete ticket settled as won at 1.50 and then at 2.00 |
| WagerRuns.LegFinal | internal/domain/wager.go:949-967 | a graded leg never changes in any run, nor does one that shares an earlier leg's identifier |
| WagerRuns.LegIdentifiersUnchecked | internal/domain/wager.go:653-672 | terms are accepted exactly when they are with a leg's identifier replaced by any other non-empty one |
| WagerRuns.RepeatedIdentifierPlaced | internal/domain/wager.go:644-674 | accepted terms with a later leg renamed after an earlier one are placed, and no run changes that leg |
| WagerRuns.TeaserIgnoresDirection | internal/domain/wager.go:716-729 | terms are accepted exactly when they are with a teased line replaced by its mirror image |
| WagerRuns.ChangesBounded | internal/domain/wager.go:286-292 | in any run the ticket's or a leg's status changes at most two more times than there are legs |
| Ledgers.NewTransaction | internal/domain/ledger.go:514-568 | the loop and the sum accept exactly two or more non-zero entries of one kind that sum to zero within range |
| Ledgers.TransactionExactly | internal/domain/ledger.go:514-568 | which parameters that is, entry by entry and prefix by prefix, and that the transaction records them |
| Ledgers.NetFor | internal/domain/ledger.go:606-619 | the exact net on one account, an error exactly when a running total leaves the safe range |
| Ledgers.EntryNetIsSum | internal/domain/ledger.go:606-619 | the net is the sum of the amounts on that account |
| Ledgers.NetSafeExactly | internal/domain/ledger.go:606-619 | the running totals are those after each entry |
| Ledgers.Balance | internal/domain/ledger.go:637-654 | the exact balance by transaction, with exactly its failure cases |
| Ledgers.BalanceSafeExactly | internal/domain/ledger.go:637-654 | its failure cases, transaction by transaction |
| Ledgers.Balances | internal/domain/ledger.go:663-675 | exactly the touched accounts, each with its exact net; an error exactly when a running balance leaves the safe range |
| Ledgers.RunningSafeExactly | internal/domain/ledger.go:663-675 | its failure cases, entry by entry |
| Ledgers.NetByEntry | internal/domain/ledger.go:621-675 | folding by transaction and by entry give the same balance |
| Ledgers.BalancesAgree | internal/domain/ledger.go:637-675 | where both folds succeed they agree on every account, and an untouched account nets to zero |
| Ledgers.BalancesSumToZero | internal/domain/ledger.go:656-675 | over all accounts the balances of constructed transactions add up to zero |
| Ledgers.ConstructedBalance | internal/domain/ledger.go:677-685 | any list of constructed transactions sums to zero with every partial sum in range |
| Ledgers.LedgerIsBalanced | internal/domain/ledger.go:686-702 | the audit's exact verdict, and that it cannot fail on constructed transactions, not even by overflow |
| Postings.TransferEntries | internal/domain/ledger.go:876-890 | a debit and a credit of one amount, exactly when it is non-zero and safe |
| Postings.GrantPosts | internal/domain/ledger.go:711-726 | which grants post, under what kind, identifier and instant, and that they move issuance and the customer's cash and nothing else |
| Postings.AdjustmentPosts | internal/domain/ledger.go:734-751 | which adjustments post, and what they move |
| Postings.StakePosts | internal/domain/ledger.go:763-782 | a reachable wager's stake posts given an identifier and an instant, from cash to escrow |
| Postings.NewSettlementTransaction | internal/domain/ledger.go:805-854 | the loop over the three movements builds exactly the specified settlement or fails with it |
| Postings.ThreeMoves | internal/domain/ledger.go:786-796 | for any returned amount the three movements, zeros dropped, balance without leaving the safe range |
| Postings.SettlementPosts | internal/domain/ledger.go:784-871 | every reachable closed wager settles, filed under the kind of its outcome, with two or three entries moving its own accounts and the house |
| Postings.KindMatchesMovement | internal/domain/ledger.go:797-871 | the kind a settlement is filed under agrees with who was paid: payout, loss, refund or cash-out |
| Postings.EscrowNetsToZero | internal/domain/ledger.go:753-854 | a wager's stake and settlement leave its escrow at zero |
| Books.BookEquations | internal/domain/ledger.go:711-854 | over every run: escrow is the stakes still held (per user, and per wager), issuance is minus the grants, house and cash follow net returns up to the amounts rewritten |
| Books.HouseKeptExactly | internal/domain/wager.go:451-474 | an operation keeps the house equation exactly when it does not rewrite a closed wager's return |
| Books.LedgerEquations | internal/domain/ledger.go:621-675 | without adjustments and rewritten returns the ledger's own balances satisfy all the equations |
| Books.BookBalances | internal/domain/ledger.go:677-702 | in every run, adjustments included, the audit passes and the balances sum to zero |
| Books.RewrittenReturnOpensGap | internal/domain/wager.go:985-997 | a concrete run after which the house is 0.50 away from minus the net returns |
| Books.OpKeepsValid | internal/domain/wager.go:483-489 | every wager in the book stays a valid ticket and every transaction a balanced one |
| Books.OpTakesEffect | internal/domain/ledger.go:711-854 | when each operation of the book takes effect, the wager, grant and transaction it then leaves, and that a refused one changes nothing |
| Books.EveryEntryMinted | internal/domain/ledger.go:230-444 | in every run each posted entry, and the account it is on, is one the constructors give |
| SessionTables.CappedExpiry | internal/auth/pgstore/store.go:517-526 | the asked-for expiry or the end of the session's lifetime, whichever is earlier |
| SessionChains.UsedIffSucceeded | internal/auth/store.go:274-282 | in a well-formed store a token is marked used exactly when it has a successor |
| SessionChains.IndexSuffices | internal/auth/pgstore/store.go:316-325 | dropping the unused-row guard changes no redemption: the unique index decides the same |
| SessionChains.CommitKeepsChains | internal/auth/store.go:274-282 | a redemption keeps every family one parent chain with one unused tip |
| SessionChains.CreationKeepsChains | internal/auth/pgstore/store.go:270-286 | a login is a new chain of one and disturbs no other |
| SessionStore.Store.InsertToken | internal/auth/pgstore/store.go:327-329 | one row against its checks and every unique index |
| SessionStore.Store.CreateSession | internal/auth/pgstore/store.go:270-286 | a family and its root token, both or neither |
| SessionOutcomes.CreationRecords | internal/auth/pgstore/store.go:270-286 | exactly when, and the two rows |
| SessionStore.Store.Redeem | internal/auth/pgstore/store.go:462-489 | the two writes of a rotation win, lose or fail exactly as specified, and roll back unless they win |
| SessionStore.Store.RotateAttempt | internal/auth/pgstore/store.go:393-504 | each branch in order, what it reports, and which revocation it still owes |
| SessionStore.Store.Rotate | internal/auth/pgstore/store.go:375-389 | attempt and owed revocation together meet the numbered contract |
| SessionStore.Store.RevokeFamily | internal/auth/pgstore/store.go:533-541 | ends one lineage, idempotently, keeping the first reason |
| SessionOutcomes.FamilyEnded | internal/auth/pgstore/store.go:533-541 | the row after it, by what it held before |
| SessionStore.Store.RevokeByToken | internal/auth/pgstore/store.go:554-593 | ends the lineage of a token, whatever state the token is in |
| SessionStore.Store.RevokeUserSessions | internal/auth/pgstore/store.go:601-612 | ends exactly the user's live lineages |
| SessionOutcomes.UserEnded | internal/auth/pgstore/store.go:601-612 | the user's live families end, every other row is spared, and nothing happens when one would end before it began |
| SessionStore.Store.SetPassword | internal/auth/pgstore/store.go:216-233 | moves the password instant of a known user |
| SessionOutcomes.NothingFound | internal/auth/store.go:266 | a token that is not stored, or has no family or owner, is not found, and nothing changes |
| SessionOutcomes.RefusalTable | internal/auth/store.go:267-273 | steps 2 to 5 over the stored rows: revoked and expired change nothing, older than the password and already used end exactly that family, for their own reasons, unless that would predate it |
| SessionOutcomes.RedemptionTable | internal/auth/store.go:274-280 | step 6 over the stored rows: which checks fail the call, which clashes count as reuse, and the two rows written otherwise |
| SessionRuns.RotatesExactly | internal/auth/store.go:262-290 | an atomic rotation succeeds exactly on the unused tip of a live, current, unexpired lineage with a fresh successor |
| SessionRuns.ReplayRevokes | internal/auth/store.go:272-273 | replaying a redeemed, unexpired token of a live lineage revokes it and reports reuse, unless the revocation would predate the login |
| SessionRuns.RotationIsItsParts | internal/auth/pgstore/store.go:354-374 | read, write and revocation run without interruption are the atomic rotation |
| SessionOutcomes.SingleStatements | internal/auth/pgstore/store.go:533-612 | the runs' other events do to the tables what their statement does, and move no request |
| SessionRuns.StepKeeps | internal/auth/store.go:262-290 | every event, in any interleaving, keeps the invariant |
| SessionRuns.RunKeeps | migrations/00005_accounts_and_auth.sql:552-592 | and over every run rows are never removed or edited, and a redemption or revocation is written once |
| SessionRuns.EveryInterleaving | internal/auth/store.go:262-290 | every family one chain with one unused tip, at most one winner per token, a reported reuse leaves the family revoked, no redemption past the lifetime |
| SessionRuns.PasswordShuts | internal/auth/store.go:268-269 | a password change shuts exactly the families that began before it, even if nothing is then revoked |
| SessionRuns.ShutForGood | internal/auth/service.go:853-872 | after a revocation or a newer password no request that begins later ever redeems the family's tokens |
| SessionRuns.WriteIgnoresRevocation | internal/auth/pgstore/store.go:462-482 | why it must begin later: the write half does not look at the family again |
| SessionRuns.ServiceLifetimes | internal/auth/service.go:157-178 | exactly which settings a service starts with, unset ones by default: a positive token lifetime no longer than its session lifetime, so the cap is always in force |
| SessionRuns.MintedExpiryAccepted | internal/auth/service.go:662-670 | in a well-formed store a redeemable token's successor always gets an expiry still ahead, capped or not |
| SessionRuns.OpenSession | internal/auth/service.go:591-603 | the rows of a login satisfy what the runs assume of one, and its token expires after its own issue |
| SessionOutcomes.LoginRecords | internal/auth/service.go:591-605 | what a login writes: a live family and an unused root token from now to the earlier of the two ends |
| SessionOutcomes.RefreshRecords | internal/auth/service.go:661-670 | what a successful refresh writes: the presented token used now, its successor from now to the earlier of the two ends, and no other row |
| SessionRuns.RefreshRequest | internal/auth/service.go:661-670 | a refresh satisfies what the runs assume of one |
| Totp.Config.Normalise | internal/auth/totp.go:102-128 | refuses exactly a negative period, digits other than 0 and 6 to 8, and a skew outside 0 to 10; unset fields take their defaults, an explicit zero skew is kept, and a normal configuration is left alone |
| Totp.StepInterval | internal/auth/totp.go:168-170 | from the epoch on, a step is the interval of its length |
| Totp.StepLength | internal/auth/totp.go:168-170 | a step is the whole seconds of the period |
| Totp.NormaliseCode | internal/auth/totp.go:265-274 | the digits of what was typed |
| Totp.DigitsOfConcat | internal/auth/totp.go:265-274 | it works character by character |
| Totp.NoDigits | internal/auth/totp.go:265-274 | and drops everything else |
| Totp.ValidateTOTPCode | internal/auth/totp.go:229-260 | the latest step of the window whose code was presented, nothing exactly when there is none |
| Totp.AcceptedExactly | internal/auth/totp.go:229-260 | which step a code is accepted for: it is that step's code in full, in the window, with no later one alike |
| Totp.MemoryReplayGuard.Consume | internal/auth/totp.go:412-433 | succeeds exactly on a key not remembered or expired, remembers it until its expiry, and keeps the live entries and no others |
| SecondFactors.WindowWidth | internal/auth/totp.go:247-257 | two instants that can match one step lie less than 2·skew+1 steps apart |
| SecondFactors.StillRemembered | internal/auth/service.go:513-516 | while a spent step can still match, its entry has not expired |
| SecondFactors.AcceptedOnce | internal/auth/service.go:487-533 | over every run mixing login, enrolment and removal, with every guard reading within the slack, each (user, step) is accepted at most once |
| SecondFactors.OneTimeUseWithinSlack | internal/auth/service.go:513-516 | for every configuration and every delay, one-time use holds over all runs whose guard reads the clock at most that much later exactly when the delay is within the slack |
| SecondFactors.OneTimeUseExactly | internal/auth/service.go:513-516 | the case of no delay: with a whole-second period, exactly a skew of at most one |
| SecondFactors.NanosecondTooLate | internal/auth/service.go:513-516 | at a skew of one, a guard reading one nanosecond after the service already breaks it |
| SecondFactors.DefaultTooLate | internal/auth/totp.go:102-128 | the configuration left unset normalises to such a one |
| SecondFactors.ReplayAccepted | internal/auth/service.go:487-533 | for every delay past the slack, a run that spends one step twice |
| SecondFactors.ReplayValidates | internal/auth/totp.go:229-260 | the replayed code is one that validation matches to that step at both instants |
| SecondFactors.ConsumedExactly | internal/auth/service.go:487-533 | a presentation is accepted exactly when its step is fresh, and is then remembered for skew + 2 periods |
| SecondFactors.RowsAfter | internal/auth/enrolment.go:70-310 | the enrolment rows after every call, and whose codes are spent |
| SecondFactors.ConfirmedStays | internal/auth/pgstore/store.go:655-676 | a confirmed factor is never replaced; it goes only by removal, and by code only on a fresh step |
| SecondFactors.ValidatedInWindow | internal/auth/totp.go:247-259 | what validation returns always lies in the window the runs assume |
| EnrolmentService.Service.ConsumeCode | internal/auth/service.go:487-533 | validate, then burn, and accept only a first burn |
| EnrolmentService.Service.CheckSecondFactor | internal/auth/service.go:460-476 | a user without a confirmed factor passes, one with it is admitted exactly on a fresh code |
| EnrolmentService.Service.ConfirmEnrolment | internal/auth/enrolment.go:136-179 | arms a pending row, with its own secret, exactly on a fresh code, which is spent |
| EnrolmentService.Service.DisableTOTPWithCode | internal/auth/enrolment.go:261-292 | removes the row, and only that one, exactly on a fresh code from it, confirmed or not |
| EnrolmentService.Service.BeginEnrolment | internal/auth/enrolment.go:70-123 | stores the new secret unconfirmed over anything but a confirmed row, and refuses over that |
| Base64.RoundTrip | internal/httpapi/cursor.go:115-129 | decoding what was encoded gives the bytes back, in both alphabets |
| Base64.AlphabetTable | internal/httpapi/cursor.go:115-129 | the two alphabets of RFC 4648, symbol by symbol |
| Base64.GroupDigits | internal/httpapi/cursor.go:115-129 | three bytes and their four symbols are one 24-bit number, most significant first |
| Base64.TailDigits | internal/httpapi/cursor.go:115-129 | the last one or two bytes likewise, filled up with zero bits |
| Base64.EncodeConcat | internal/httpapi/cursor.go:115-129 | whole groups are encoded on their own |
| Base64.DecodesExactly | internal/httpapi/cursor.go:129-132 | exactly which texts decode |
| Base64.ReencodesExactly | internal/auth/password.go:478-485 | a text that decodes is the one that is written exactly when it has no line breaks and no spare bits |
| Strings.SplitJoin | internal/httpapi/cursor.go:109-134 | fields without the separator come back as they were joined |
| Strings.JoinSplit | internal/auth/password.go:456 | the fields of any text, joined again, are the text |
| Cursors.CursorText | internal/httpapi/cursor.go:108-117 | what a cursor is underneath: its four fields in order, in their notations |
| Cursors.DecodesExactly | internal/httpapi/cursor.go:119-168 | exactly which texts decode under a fingerprint, and to what |
| Cursors.CursorRoundTrip | internal/httpapi/cursor.go:108-168 | a cursor decodes to itself under its own scope and to an error under any other |
| Cursors.EncodedLength | internal/httpapi/cursor.go:64-67 | every minted cursor is within the length the decoder accepts |
| Cursors.CursorScope | internal/httpapi/cursor.go:93-101 | the loop feeds the hasher exactly the framed parts |
| Cursors.FrameText | internal/httpapi/cursor.go:96-98 | one frame: the length in decimal, a colon, the part and a zero byte |
| Cursors.FramingInjective | internal/httpapi/cursor.go:96-98 | no two different lists of parts are framed as the same bytes |
| Boards.EventPage | internal/httpapi/pgstore/pgstore.go:307-375 | from one row more than the page: the first wanted rows in order, and a next page exactly when one was left out |
| Boards.PageExactly | internal/httpapi/pgstore/pgstore.go:307-375 | which rows a page shows, by league, window, cursor and last row |
| Boards.CursorContinues | internal/httpapi/board.go:159-192 | the token minted from a page reads back as the key of its last row |
| Boards.NoTokenExactly | internal/httpapi/board.go:175-192 | there is no token exactly on the last page or an empty one, and an absent token is the first page |
| Boards.WalkSorted | internal/httpapi/board.go:72-110 | across pages of a changing table keys only go up |
| Boards.WalkComplete | internal/httpapi/cursor.go:17-28 | a key in the set throughout is emitted before the pages run out |
| Boards.BoardWalk | internal/httpapi/cursor.go:17-42 | over a whole walk no key is emitted twice or out of order, and a key that stays in the set is emitted exactly once |
| Boards.BoardPartsInjective | internal/httpapi/board.go:65-72 | two boards are fingerprinted over the same bytes only when league and window agree |
| Boards.OtherWindowRefused | internal/httpapi/board.go:159-172 | a token is refused exactly under a different fingerprint |
| Phc.DecodeCostTriple | internal/auth/password.go:507-545 | the loop with its seen flags computes the specified triple |
| Phc.CostTripleExactly | internal/auth/password.go:500-545 | accepted exactly: one m, one t and one p field in some order, with decimals in range |
| Phc.DecodesExactly | internal/auth/password.go:453-498 | a text decodes to given parameters, salt and digest exactly when its six fields and the ranges are as stated, one by one |
| Phc.HashRoundTrip | internal/auth/password.go:330-351 | a freshly written hash decodes to its own parameters, salt and digest and needs no rewriting |
| Phc.RehashExactly | internal/auth/password.go:155-169 | a stored hash is left alone exactly when no cost or length is below the policy's and the parallelism is the policy's; what does not decode gets no answer |
| Phc.WrittenRehash | internal/auth/password.go:416-430 | likewise for a hash written under any other parameters |
| Phc.VersionExactly | internal/auth/password.go:464-472 | a version field reads as 19 exactly when it is `v=`, blanks, an optional plus, zeros, `19` and a tail that does not start with a digit |
| Phc.WrittenExactly | internal/auth/password.go:445-498 | a text that decodes is the one written for what it decodes to exactly when its fields are in their written form |
| Phc.VersionJunkAccepted | internal/auth/password.go:445-472 | a text that is never written, with a tail after its version, decodes like the hash it was made from |
| Catalogue.MarketTree | internal/httpapi/catalogue.go:150-221 | each requested event gets exactly the subtree it would be built from alone |
| Catalogue.BatchNode | internal/httpapi/catalogue.go:185-219 | the maps of a batch give each market what the store would give it alone |
| Catalogue.MarketFiledOnce | internal/httpapi/catalogue.go:217-219 | a market is filed as often as the store holds it, under its own event only |
| Catalogue.NodeRows | internal/httpapi/catalogue.go:185-219 | under a market stand its own selections, and under each its own quotes from the books asked for, as often as stored |
| Catalogue.SelectInOrder | internal/httpapi/catalogue.go:185-219 | filing keeps the stored order and skips nothing |
| Catalogue.ShownExactly | internal/httpapi/catalogue.go:195-207 | the book filter shows exactly the books in it, and every book when absent |
| Catalogue.Tally | internal/httpapi/catalogue.go:347-359 | one pass files every shown quote under its book and keeps the first highest price per selection |
| Catalogue.BestExactly | internal/httpapi/catalogue.go:347-359 | the best price is the first stored of the highest offers |
| Catalogue.Comparison | internal/httpapi/catalogue.go:330-439 | a row for exactly the books that quoted, holding their shown quotes in order, and exactly the quoted selections in selection order, each with the first of its highest shown prices |
| Catalogue.OverroundOnlyWhenComplete | internal/httpapi/catalogue.go:410-419 | a margin is considered for a book exactly when it quoted every selection (one quote per selection and book) |

## Left out

- Money.MulFloat: the product is taken over the reals before rounding; the rounding of an IEEE product, NaN and infinities are not modelled.
- Wagers.NewWager: odds, lines and points are reals, so the not-finite refusals and float tolerance effects are not modelled.
- Legs.NewLeg: selection roles and the table of roles a market type allows are not modelled, nor the book and observation instant of a price.
- Totp.ValidateTOTPCode: the code function (HMAC-SHA1 and truncation) is a parameter, and constant-time comparison is a plain one; a period under a second, which the source accepts and then divides by zero on, is excluded.
- SecondFactors.AcceptedOnce: clocks from 1970 on, since steps before then round toward zero and the first one is twice as long.
- EnrolmentService.Service.CheckSecondFactor: recovery codes, the key ring and its errors are not modelled.
- SessionRuns.RunKeeps: deletion of expired rows, which the migration permits, is not an event.
- SessionRuns.EveryInterleaving: rows are never deleted here, and a suspended owner's revocation after a rotation is an ordinary end of the family.
- SessionTables.CappedExpiry: instants are unbounded integers; the truncation to microseconds is not modelled.
- Boards.EventPage: the SQL statement is the set of rows it must return, under any total order of identifiers; the search page, which shares the cursor code, is not modelled.
- Cursors.CursorScope: FNV-1a is a parameter of the fold, and collisions are not excluded.
- Phc.VersionExactly: blanks before the version number are the ASCII and Latin-1 ones only.
- Catalogue.Comparison: the order of the rows and the rendered fields (slugs, roles, probabilities, the margin's value) are not modelled.
- Catalogue.MarketTree: prices, labels and formats of the rendered nodes, the price cache in front of the quotes, and the ordering of books are not modelled; display order is any rearrangement.
- Error text and error classes, metrics, logs, HTTP parsing and routing: wiring around the modelled calls.
- Access tokens, argon2id, AES-GCM, minting of identifiers and secrets: library behaviour; minted values enter as parameters and the unique indexes refuse repeats.
- The race between rewriting a password's hash and changing the password: the store has no compare-and-set there, so there is nothing to prove.
- Validation of events, markets, books, sports and leagues and the enum text forms: finite tables.
- Pricing, ingest, devigging and the odds package: not part of this model.
