# ZKELLA in Dafny

ZKELLA is a shielded pool on Soroban. Public tokens are shielded into hidden notes, notes are
transferred and split under zero-knowledge proofs, and unshielded again. Around the pool stand an
escrowing commit-reveal swap, a Groth16 verifier with timelocked key rotation, an indexer that
clients page through, and a sanctions list that users prove they are not on. This project models
that logic and proves what it is for: value is conserved in every reachable state and goes only where
a call's own terms send it, swaps stay solvent and are settled once, field arithmetic is exact, a
batch of proofs is worth its items, keys cannot change behind the timelock, no note is lost on the way
to a client that stays within what the indexer has synced, and the sanctions proof exists exactly for
those who are not listed.

Check it with `dafny verify --resource-limit 2000000 dfyconfig.toml`.

## How the model is laid out

| files | part of the system |
|---|---|
| `MerkleSpec`, `NoteTree` | the ideal padded tree over a generic hash; the stored tree with its batched insert and root window |
| `Notes`, `Tokens` | notes, commitments, nullifiers, circuit relations; token balances |
| `PoolSpec`, `ShieldedToken` | the pool entrypoints as functions on states; the contract as a class proved against them |
| `PoolConservation`, `PoolBatch`, `PoolBacking`, `PoolSystem`, `PoolFlows` | conservation, batch against single deposits, pro-rata payouts, whole runs and what they add up to |
| `PoolEffects`, `PoolExits`, `PoolTransfers` | exactly when each pool call succeeds and whom it pays; which notes can leave and which can move |
| `SwapSpec`, `ShieldedSwap`, `SwapSafety`, `SwapHistory` | the swap entrypoints, the contract class, solvency, whole runs |
| `SwapEffects`, `SwapTerms` | exactly when each swap call succeeds, what it records and whom it pays; what an ownership proof fixes |
| `Positional`, `ByteStrings`, `FieldLimbs`, `PointEncoding` | digits and bytes, 4x64-limb arithmetic modulo r, point negation and public inputs |
| `ModArith`, `Groth16`, `Groth16Layout`, `BatchVerify`, `KeyRegistry` | congruences, one verification equation, the bytes it is read from, K of them combined, key rotation |
| `GovernanceSpec`, `GovernanceEffects`, `Governance` | timelocked changes and their histories; what each call demands and changes; the contract class |
| `IndexerSync`, `NotePaging`, `NoteResuming` | the sync loop; the paged query in both database forms and its client; resuming while the indexer goes on |
| `Sanctions` | the sanctions tree, the bracketing search, paths, and the circuit relation they serve |

A contract is a class whose methods write its storage; each method is proved to do what a function
on plain states says, and the theorems about runs are proved about that function. A returned error
or a panic undoes the call, so a failing method must end in the state it started from. Invariants
range over every interleaving of calls, failing calls, settings changes, unrelated token traffic
and, where named, clawbacks by an asset's issuer.

## Assumptions

- The note and sanctions trees work for any hash function at all; where binding matters the
  conclusion reads "or two different pairs hash alike". The pool itself uses a free algebra of field
  elements, in which Poseidon2 is injective and addresses map to distinct elements.
- A proof the verifier accepts was made for one list of public inputs, is accepted for no other, and
  carries a witness of its circuit relation. The relations are those of the circuits, with sums taken
  modulo r and 64-bit range checks; the same-call distinctness the transfer circuits also impose is
  not used, because the contract checks it itself.
- `auth` is the set of addresses whose authorization a call carries. The host never lets the pool or
  the swap contract appear there on someone else's call; the swap contract authorizes its own deposit.
- Token contracts follow SEP-41 `transfer` and `balance`.
- Curve points are scalars modulo the group order, pairings are multiplication, and flipping y in an
  encoding negates the point. Only the uniqueness of the bad challenge needs that order to be prime.
- The indexer's node returns pages of one ordered event history; a page shorter than the limit is
  complete up to the reported latest ledger, a node refuses a request that starts past its latest
  ledger, and leaf indices grow along the history.

## What the proofs turned up

- The commit check of the swap admits one expiry too many: at exactly
  `u32::MAX - CLAIM_WINDOW_LEDGERS` the swap commits, but once executed it can never be reclaimed,
  since no ledger lies past the deadline. `ReclaimIsReachable` gives the exact condition and
  `LastExpirySwapIsStuck` the input, as a run.
- A page can send a client past a ledger that is only partly indexed, because events are stored one at
  a time; resuming there loses the rest of that ledger (`NoteMissedByResuming`). A client is safe
  exactly if it goes no further than the `syncedLedger` the indexer publishes, read no later than the
  page (`ResumingIsSafeIffSynced`).
- Unshielding to the pool's own address is accepted and leaves the tokens in the pool while the supply
  drops, so exhausting the supply need not empty the balance (`SelfWithdrawalStaysBehind`). It does
  exactly if each such call finds balance + value <= supply (`ExhaustingTheSupplyPaysTheBalance`).
- Two notes of one key with the same `rho` share a nullifier: once one is spent, the other can never
  leave, and its value stays in the supply (`SharedNullifierStrands`; `TwinStaysBehind` is such a run).
- An ownership proof fixes every term of the commit it comes with except the output note binding and the
  minimum output, which `contracts/swap/src/lib.rs:83-105` leaves out of the tag
  (`ProofFixesTheOtherTerms`).
- The comment at `sdk/src/prover/transfer.ts:23-25` describes commitments without the owner key. The
  circuits and `contracts/token/src/lib.rs:65-88` include it, and so does the model.

## Model

| member | source | states |
|---|---|---|
| `MerkleSpec.NodeBeyond` | contracts/token/src/merkle.rs:95-97 | a subtree of the padded tree with no used leaf has the precomputed empty root of its height |
| `MerkleSpec.NodeStable` | contracts/token/src/merkle.rs:155-224 | appending leaves never changes a subtree that was already full |
| `MerkleSpec.PathReachesRoot` | contracts/token/src/merkle.rs:291-308 | folding any index with its sibling path gives the root of the padded tree, from the used leaf or from the empty one |
| `MerkleSpec.FoldBinds` | contracts/token/src/merkle.rs:291-308 | converse: a path that folds to a node opens exactly that position, sibling for sibling, or two different pairs hash alike |
| `MerkleSpec.AnchorBinds` | contracts/token/src/merkle.rs:237-252 | a non-empty leaf authenticated against the root of any earlier tree sits at the same index in the current one, or the hash collides |
| `NoteTrees.NoteTree.InsertMany` | contracts/token/src/merkle.rs:155-224 | for every size, alignment and batch of 1..8 up to capacity: every stored node at every level, the cached root, the next index and the root window are those of the ideal tree over old leaves plus batch (`Valid` with the new log), and the first index is the old size; all indices stay in bounds and in `u32` |
| `NoteTrees.NoteTree.HashLevel` | contracts/token/src/merkle.rs:172-205 | one level of the batched insert turns the nodes lo..hi of a level into their parents, stores them, and completes that level of the new tree |
| `NoteTrees.NoteTree.HashParent` | contracts/token/src/merkle.rs:176-200 | the parent built from the batch, a stored left neighbour or the empty subtree is the node of the new tree |
| `NoteTrees.NoteTree.PushRoot` | contracts/token/src/merkle.rs:207-221 | the new root becomes current and joins the window, which keeps the last 32 |
| `NoteTrees.NoteTree.Insert` | contracts/token/src/merkle.rs:137-139 | a single insert appends its leaf and returns its index |
| `NoteTrees.NoteTree.HasCapacity` | contracts/token/src/merkle.rs:119-126 | true exactly when `count` more leaves fit below `u32::MAX` |
| `NoteTrees.NoteTree.IsFull` | contracts/token/src/merkle.rs:104-111 | true exactly when not one more leaf fits |
| `NoteTrees.NoteTree.Root` | contracts/token/src/merkle.rs:227-235 | the root of the padded tree over all leaves, also before the first insert |
| `NoteTrees.NoteTree.IsKnownRoot` | contracts/token/src/merkle.rs:242-252 | accepts exactly the roots after the last 32 inserting calls, or the empty root before any |
| `NoteTrees.NoteTree.GetPath` | contracts/token/src/merkle.rs:256-275 | returns the ideal sibling path of any leaf index, used or not |
| `NoteTrees.BatchStoresWhatSingleInsertsStore` | contracts/token/src/merkle.rs:374-420 | a batched insert and single inserts of the same leaves end in the same stored nodes, root and next index |
| `NoteTrees.StoredUnique` | contracts/token/src/merkle.rs:354-372 | two stores holding the ideal tree over the same leaves are equal |
| `NoteTrees.KnownRootBinds` | contracts/token/src/merkle.rs:242-252 | whatever non-empty leaf opens an accepted root is at that index of the current tree (or the hash collides) |
| `NoteTrees.PathOpensCurrentRoot` | contracts/token/src/merkle.rs:256-308 | folding the path of any index reproduces the current root |
| `Notes.CommitmentBinds` | contracts/token/src/lib.rs:65-88 | a commitment opens to one note only and is never the empty leaf |
| `Notes.TransferBalances` | circuits/transfer_2in2out/transfer.circom:105-112 | the circuit balance, stated modulo r, holds over the integers thanks to the 64-bit range checks |
| `Notes.UnshieldBalances` | circuits/unshield/unshield.circom:67-86 | spent value = withdrawn value + change, over the integers |
| `Notes.KeysBind` | circuits/common/nullifier.circom:6-15 | a nullifier determines its owner key and `rho`, and an owner key its secret key |
| `Tokens.PayMoves` | contracts/token/src/lib.rs:1080-1102 | a token transfer moves exactly its amount and no other balance, also from a holder to itself |
| `Tokens.TokenContracts.Transfer` | contracts/token/src/lib.rs:1080-1102 | a transfer succeeds exactly when the payer has the funds, and otherwise changes nothing |
| `ShieldedTokens.ShieldedToken.Shield` | contracts/token/src/lib.rs:271-425 | the state after the call is the specified one, with the same result; every error leaves tree, sets, supply and balances as they were |
| `ShieldedTokens.ShieldedToken.ShieldBatch` | contracts/token/src/lib.rs:442-589 | likewise for a batch, with the same leaf indices and the first error in item order |
| `ShieldedTokens.ShieldedToken.CheckItems` | contracts/token/src/lib.rs:487-566 | the batch loop computes the seen set, total, commitments and indices, or the error, of the recursive specification |
| `ShieldedTokens.ShieldedToken.Transfer` | contracts/token/src/lib.rs:641-880 | likewise for 2 and 4 notes: same checks in the same order, same writes, all or nothing; `PoolEffects.TransferMoves` says who is paid the fee |
| `ShieldedTokens.ShieldedToken.CheckCall` | contracts/token/src/lib.rs:652-793 | the checks of a transfer, loops included, give the specified first error or pass |
| `ShieldedTokens.ShieldedToken.MarkSpent` | contracts/token/src/lib.rs:795-840 | the loop leaves exactly the nullifiers and commitments of the call added |
| `ShieldedTokens.ShieldedToken.Unshield` | contracts/token/src/lib.rs:914-1105 | likewise for a withdrawal, with its pro-rata payout; `PoolEffects.UnshieldMoves` says to whom |
| `ShieldedTokens.ShieldedToken.CheckWithdrawal` | contracts/token/src/lib.rs:914-1015 | the checks of a withdrawal give the specified first error or pass; `PoolEffects.UnshieldSucceedsIff` and `RecipientIsBound` say what passing means |
| `ShieldedTokens.ShieldedToken.CustodyShortfall` | contracts/token/src/lib.rs:1137-1145 | how much the balance falls short of the supply, 0 when it does not |
| `ShieldedTokens.PairwiseDistinct` | contracts/token/src/lib.rs:720-732 | the nested loop finds a repeated nullifier or commitment exactly when there is one |
| `ShieldedTokens.NoneIn` | contracts/token/src/lib.rs:734-751 | none of the given elements is in the set |
| `ShieldedTokens.SameAsPublic` | contracts/token/src/lib.rs:702-712 | the loop compares both argument lists with the public inputs |
| `ShieldedTokens.ShieldedToken.SetMinShieldAmount` | contracts/token/src/lib.rs:190-197 | only the admin, only to a positive amount |
| `ShieldedTokens.ShieldedToken.SetAssetApproved` | contracts/token/src/lib.rs:227-231 | only the admin; exactly that asset is toggled |
| `ShieldedTokens.ShieldedToken.SetRelayer` | contracts/token/src/lib.rs:239-247 | only the admin; exactly that relayer is toggled |
| `PoolConservation.SpendIsFresh` | contracts/token/src/lib.rs:713-745 | the witness of an accepted spend names a leaf of the current tree that no earlier spend consumed |
| `PoolConservation.InputsAreFresh` | contracts/token/src/lib.rs:713-745 | the inputs of one accepted transfer are pairwise different, unconsumed leaves |
| `PoolConservation.ShieldKeepsInv` | contracts/token/src/lib.rs:271-425 | shield keeps the conservation invariant: supply of each asset = value of the notes not consumed |
| `PoolConservation.TransferKeepsInv` | contracts/token/src/lib.rs:641-880 | transfer keeps it, relayer fee included |
| `PoolConservation.UnshieldKeepsInv` | contracts/token/src/lib.rs:914-1105 | unshield keeps it, change note included |
| `PoolSystem.StepKeepsInv` | contracts/token/src/lib.rs:271-1105 | every event, failing calls, admin changes, other token traffic and clawbacks included, keeps it |
| `PoolSystem.ReachableStatesConserve` | contracts/token/src/lib.rs:156-1105 | in every state reachable from deployment, for every asset, `ShieldedSupply` is the total value of the inserted notes no accepted spend has consumed |
| `PoolFlows.BooksBalance` | contracts/token/src/lib.rs:156-1105 | after any run from deployment the deposits of an asset, less the fees and withdrawals paid, are its recorded supply and the value of the appended notes nobody has spent |
| `PoolFlows.StepFlows` | contracts/token/src/lib.rs:271-1105 | every event changes each supply by exactly its accepted deposit, fee or withdrawal, appends exactly its own commitments (2 or 4 for the two transfers), and changes only the setting it is about |
| `PoolSystem.NoLeafConsumedTwice` | contracts/token/src/lib.rs:795-801 | over a whole run the leaves consumed by accepted spends are pairwise different |
| `PoolSystem.AcceptedUnshieldIsCovered` | contracts/token/src/lib.rs:1027-1041 | in a reachable state an unshield that passes its checks never fails for lack of supply or balance |
| `PoolSystem.AcceptedTransferIsCovered` | contracts/token/src/lib.rs:853-875 | nor does a transfer whose checks passed fail to pay its fee |
| `PoolEffects.ShieldSucceedsIff` | contracts/token/src/lib.rs:271-425 | the exact condition for a deposit to succeed, written out: in particular its proof knows the very note deposited and was made for its commitment, value commitment, amount and asset |
| `PoolEffects.ShieldMoves` | contracts/token/src/lib.rs:271-425 | for every asset and holder: exactly the amount goes from the payer to the pool; supply, leaves and seen set grow by it, nothing else changes |
| `PoolEffects.ShieldErrorMeans` | contracts/token/src/lib.rs:271-425 | what each error of a deposit says about the call |
| `PoolEffects.ShieldBatchMoves` | contracts/token/src/lib.rs:442-589 | a successful batch has 1 to 8 items and moves exactly their total from the payer to the pool, with consecutive leaf indices |
| `PoolEffects.BatchSizeErrors` | contracts/token/src/lib.rs:442-486 | `EmptyBatch` and `BatchTooLarge` are returned exactly for 0 and for more than 8 items, once payer, pause and asset are in order |
| `PoolEffects.TransferSucceedsIff` | contracts/token/src/lib.rs:641-880 | the exact condition for a transfer to succeed, written out |
| `PoolEffects.TransferMoves` | contracts/token/src/lib.rs:853-875 | for every asset and holder: the fee, and nothing else, goes from the pool to the relayer named, and the supply drops by it |
| `PoolEffects.TransferErrorMeans` | contracts/token/src/lib.rs:641-880 | what each error of a transfer says about the call |
| `PoolEffects.UnshieldSucceedsIff` | contracts/token/src/lib.rs:914-1041 | the exact condition for a withdrawal to succeed, the binding of its proof to payee and tag included |
| `PoolEffects.RecipientIsBound` | contracts/token/src/lib.rs:934-943 | of all withdrawals that carry one proof or one list of public inputs, in whatever states, only those naming one and the same payee, tag, nullifier and change commitment succeed |
| `PoolEffects.UnshieldMoves` | contracts/token/src/lib.rs:1023-1105 | for every asset and holder: the payee named, and nobody else, is paid the full value, or its share rounded down, out of the pool, while the supply drops by the value |
| `PoolEffects.ChangeStaysWithTheOwner` | circuits/unshield/unshield.circom:64-101 | the leaf an accepted withdrawal spends and the change note it inserts have one owner and one asset, and their values differ by the value withdrawn |
| `PoolEffects.UnshieldErrorMeans` | contracts/token/src/lib.rs:914-1041 | what each error of a withdrawal says about the call |
| `PoolTransfers.MovesIffAllowed` | contracts/token/src/lib.rs:641-880 | the transfer of given leaves to given new notes succeeds exactly if the leaves are unspent notes of one owner and asset with distinct `rho`, the new notes are fresh and distinct, inputs equal outputs plus fee over the integers, and a fee goes to an approved, authorizing relayer of a pool without shortfall |
| `PoolTransfers.RelationIffBalanced` | circuits/transfer_2in2out/transfer.circom:35-112 | the circuit relation holds of the opened leaves exactly if owner, asset, 64-bit values and the integer balance are right |
| `PoolBatch.BatchIsOneByOne` | contracts/token/src/lib.rs:442-589 | a batch of 1..8 succeeds exactly when shielding the items one by one would, and returns the sequence of indices those calls return, with the same leaves, seen set, supply and balances |
| `PoolBatch.ShieldBatchResult` | contracts/token/src/lib.rs:442-589 | a batch succeeds exactly when every item passes, the tree has room, the supply does not overflow and the payer can pay; then the whole new state |
| `PoolBatch.ShieldEachResult` | contracts/token/src/lib.rs:271-425 | the same exact condition, new state and indices for a series of single calls |
| `PoolBatch.ShieldBatchKeepsInv` | contracts/token/src/lib.rs:442-589 | hence a batch keeps the conservation invariant |
| `PoolBacking.PayoutIsFair` | contracts/token/src/lib.rs:1080-1102 | a payout exceeds neither value nor balance, never lowers min(1, balance/supply), and never turns a shortfall into a surplus |
| `PoolBacking.PayoutRounds` | contracts/token/src/lib.rs:1090-1100 | the payout is the share rounded down: short of it by less than one unit |
| `PoolBacking.EachGetsItsShare` | contracts/token/src/lib.rs:1065-1102 | in any series of withdrawals, whoever the recipients are, each one is paid at least floor(value * starting balance / starting supply) |
| `PoolBacking.NeverOverFunded` | contracts/token/src/lib.rs:1065-1102 | after any number of withdrawals the pool holds no more than it owes exactly if each withdrawal to the pool itself so far fitted under the shortfall of its moment |
| `PoolBacking.ExhaustingWithdrawalsPayTheBalance` | contracts/token/src/lib.rs:1065-1102 | any order and split of withdrawals that exhausts the supply pays others exactly the starting balance, and is never over-funded on the way, if and only if each withdrawal the pool kept fitted under the shortfall |
| `PoolSystem.StepKeepsBacking` | contracts/token/src/lib.rs:271-1105 | no event but a clawback lowers min(1, balance/supply) of any asset |
| `PoolSystem.RunKeepsBacking` | contracts/token/src/lib.rs:271-1105 | nor does any run without a clawback |
| `PoolSystem.ReachableStatesAreBacked` | contracts/token/src/lib.rs:156-1105 | without clawbacks the pool holds at least what it owes in every reachable state |
| `PoolSystem.WithdrawalsFollowTheSeries` | contracts/token/src/lib.rs:1023-1102 | consecutive accepted unshields of one asset, to whatever recipients, follow the payout series step by step |
| `PoolSystem.ExhaustingTheSupplyPaysTheBalance` | contracts/token/src/lib.rs:1023-1102 | accepted unshields that exhaust the supply empty the balance, and never leave the pool over-funded, if and only if each one paid to the pool itself had balance + value <= supply when it was made |
| `PoolSystem.EachRecipientGetsItsShare` | contracts/token/src/lib.rs:1065-1102 | in any run of accepted unshields each recipient other than the pool receives at least its share of the balance the run started from |
| `PoolSystem.NotOverFundedIffKeptFit` | contracts/token/src/lib.rs:1065-1102 | the same condition decides, after any prefix of the run, whether the pool holds more than it owes |
| `PoolExits.SelfWithdrawalStaysBehind` | contracts/token/src/lib.rs:914-1105 | the failing input: deposit 1,000, claw back any part or nothing, unshield 1,000 to the pool itself; the call is accepted, the supply is 0 and the rest of the balance stays |
| `PoolExits.NoteCanLeaveIffSpendable` | contracts/token/src/lib.rs:914-1105 | a leaf can be unshielded, to any recipient and by any part of its value, exactly when the pool is unpaused with room for one leaf and its note has an owner, a positive 64-bit value and an unspent nullifier |
| `PoolExits.ExitSucceeds` | contracts/token/src/merkle.rs:256-275 | a withdrawal opened with the current path and root is accepted and paid |
| `PoolExits.ConsumedWasSpendable` | contracts/token/src/lib.rs:713-745 | whatever a call consumes had an owner and an unspent nullifier |
| `PoolExits.StrandedForever` | contracts/token/src/lib.rs:734-741 | an unconsumed note whose nullifier is spent is never consumed in any later state, while its value keeps counting as supply |
| `PoolExits.SharedNullifierStrands` | circuits/common/nullifier.circom:6-15 | of two notes with one key and one `rho`, unshielding from one strands the other for ever |
| `PoolExits.TwinStaysBehind` | contracts/token/src/lib.rs:271-1105 | the input that strands a note, as a run: deposit 1,000 twice with one key and one `rho`, unshield the first; over every later run the second is never consumed and its 1,000 stay in the supply |
| `SwapSafety.OwedSave` | contracts/swap/src/lib.rs:207-212 | recording a swap changes what the contract owes by the change in that swap alone |
| `SwapSafety.CommitKeepsInv` | contracts/swap/src/lib.rs:281-410 | commit keeps solvency: the escrowed amount arrived in full |
| `SwapSafety.RevealKeepsInv` | contracts/swap/src/lib.rs:481-631 | claiming pays out no more than this swap was owed |
| `SwapSafety.ReclaimKeepsInv` | contracts/swap/src/lib.rs:665-694 | reclaiming keeps solvency: it pays out no more than this swap was owed; `SwapEffects.ReclaimMoves` says to whom |
| `SwapSafety.StepKeepsInv` | contracts/swap/src/lib.rs:281-715 | every event of the two contracts keeps solvency and the conservation invariant |
| `SwapHistory.ReachableWorldsAreSolvent` | contracts/swap/src/lib.rs:281-694 | over any interleaving of many swaps and pool calls the swap contract covers `amount_in` of all Committed and Executed swaps plus `amount_out` of all Executed ones, and without clawbacks the pool covers its supply |
| `SwapHistory.StepRespectsSwap` | contracts/swap/src/lib.rs:155-187 | the terms of a recorded swap never change, a settled swap never changes at all, and an event settles it exactly when it goes from unsettled to settled |
| `SwapHistory.SettledAtMostOnce` | contracts/swap/src/lib.rs:481-694 | over any run a swap is settled at most once, and exactly once if it ends settled |
| `SwapHistory.RevealDelivers` | contracts/swap/src/lib.rs:560-631 | an accepted reveal pays the relayer exactly `amount_in` and shields `amount_out`, at least the committed minimum, to the committed owner key and note binding |
| `SwapHistory.ClaimedMeansDelivered` | contracts/swap/src/lib.rs:417-631 | a swap that ends Claimed was delivered that way by one event of the run, on its commit-time terms |
| `SwapHistory.UnwindIsEnabled` | contracts/swap/src/lib.rs:633-694 | in every reachable state, paused or not, cancel succeeds exactly when a Committed swap is past its expiry, and reclaim exactly when an Executed one is past its claim window |
| `SwapHistory.ReclaimIsReachable` | contracts/swap/src/lib.rs:665-694 | some ledger lets an Executed swap be reclaimed exactly when its expiry is strictly below `u32::MAX - CLAIM_WINDOW_LEDGERS` |
| `SwapHistory.BoundaryExpiryIsAccepted` | contracts/swap/src/lib.rs:302-310 | the counterexample: an expiry equal to `u32::MAX - CLAIM_WINDOW_LEDGERS` passes the commit checks, and no ledger lets the executed swap be reclaimed |
| `SwapTerms.LastExpirySwapIsStuck` | contracts/swap/src/lib.rs:302-310 | that counterexample as a run: from a pool with one deposited note the swap is committed at that expiry and executed, and at no ledger can it be reclaimed |
| `SwapTerms.LastCommitIsAccepted` | contracts/swap/src/lib.rs:281-410 | the whole commit at that expiry succeeds, proof, anchor and escrow included |
| `SwapTerms.ProofFixesTheOtherTerms` | contracts/swap/src/lib.rs:83-105 | two commits present the same withdrawal, proof included, exactly if they agree on every term but the output note binding and the minimum output |
| `SwapTerms.AcceptanceIgnoresThem` | contracts/swap/src/lib.rs:281-410 | an accepted commit is accepted with any other note binding and any non-negative minimum |
| `SwapHistory.ShortEscrowIsRefused` | contracts/swap/src/lib.rs:355-382 | under a custody shortfall a commit fails and changes nothing |
| `ShieldedSwaps.EscrowIsWholeOrRefused` | contracts/swap/src/lib.rs:355-382 | once its terms pass, a commit succeeds exactly when there is no shortfall and the withdrawal is accepted |
| `ShieldedSwaps.ShieldedSwap.CommitSwap` | contracts/swap/src/lib.rs:281-410 | the method escrows as specified or fails and changes nothing in either contract |
| `ShieldedSwaps.ShieldedSwap.ExecuteSwap` | contracts/swap/src/lib.rs:417-462 | the relayer pays the output into escrow as specified, or nothing changes |
| `ShieldedSwaps.ShieldedSwap.RevealAndClaim` | contracts/swap/src/lib.rs:481-631 | the claim settles as specified, or everything it wrote is undone |
| `ShieldedSwaps.ShieldedSwap.CancelSwap` | contracts/swap/src/lib.rs:638-655 | refunds the escrowed input as specified, or nothing changes; `SwapEffects.CancelMoves` says to whom |
| `ShieldedSwaps.ShieldedSwap.ReclaimExpiredSwap` | contracts/swap/src/lib.rs:665-694 | refunds both sides as specified, or nothing changes; `SwapEffects.ReclaimMoves` says to whom |
| `SwapEffects.CommitSucceedsIff` | contracts/swap/src/lib.rs:281-410 | the exact condition for a commit to succeed, written out: its ownership proof is a withdrawal of the whole input, made out to this contract under this intent, refund address, owner key, output asset and expiry, from a pool without shortfall |
| `SwapEffects.CommitRecords` | contracts/swap/src/lib.rs:281-410 | an accepted commit records every one of its terms as given, under the hash of its intent, moves exactly the input from the pool into escrow, and touches no other swap |
| `SwapEffects.ReplayedCommitIsRefused` | contracts/swap/src/lib.rs:83-105 | of all commits that carry one ownership proof, at any swap contract and in any world, only those succeed that name the same contract, input, refund address, owner key, output asset and expiry |
| `SwapEffects.ExecuteSucceedsIff` | contracts/swap/src/lib.rs:417-462 | the exact condition for an execution to succeed |
| `SwapEffects.ExecuteMoves` | contracts/swap/src/lib.rs:417-462 | the relayer pays exactly `amount_out` of the output asset into escrow and is recorded with that amount; terms, other swaps and other balances stay |
| `SwapEffects.RevealSucceedsIff` | contracts/swap/src/lib.rs:481-631 | the exact condition for a claim to succeed: owner key, note binding, fairness inputs and all the pool asks of the new note |
| `SwapEffects.RevealMoves` | contracts/swap/src/lib.rs:560-631 | for every asset and holder: the input goes to the recorded relayer, the output into the pool as a note of the committed owner, and nothing else moves |
| `SwapEffects.CancelSucceedsIff` | contracts/swap/src/lib.rs:638-655 | the exact condition for a cancellation to succeed |
| `SwapEffects.CancelMoves` | contracts/swap/src/lib.rs:638-655 | for every asset and holder: the input goes to the recorded refund address and nothing else moves; only the status changes |
| `SwapEffects.ReclaimSucceedsIff` | contracts/swap/src/lib.rs:665-683 | the exact condition for a reclaim to succeed |
| `SwapEffects.ReclaimMoves` | contracts/swap/src/lib.rs:684-688 | for every asset and holder: the output goes to the recorded relayer, the input to the recorded refund address, and nothing else moves |
| `SwapEffects.CancelledMeansRefunded` | contracts/swap/src/lib.rs:633-694 | a swap that ends Cancelled was given back by one event of the run, on its commit-time terms: its input to its refund address and, if executed, the output to its relayer |
| `SwapEffects.ExecutedMeansFunded` | contracts/swap/src/lib.rs:417-462 | a swap with a relayer on record was executed by one event of the run, in which that relayer paid the recorded output, at least the committed minimum, into escrow |
| `FieldLimbs.GeqR` | contracts/token/src/poseidon.rs:67-73 | limb-wise comparison from the top decides value >= r |
| `FieldLimbs.SubR` | contracts/token/src/poseidon.rs:75-84 | the borrow loop subtracts r, wrapping at 2^256 when the value is smaller |
| `FieldLimbs.FromBytes` | contracts/token/src/poseidon.rs:46-57 | any 32 bytes decode to the residue below r of their little-endian value |
| `FieldLimbs.Add` | contracts/token/src/poseidon.rs:86-96 | the canonical residue of the sum of canonical inputs; the carry out of the top limb is zero |
| `FieldLimbs.MulRow` | contracts/token/src/poseidon.rs:111-125 | one schoolbook row adds exactly x * b shifted by i limbs, with every 128-bit product in range |
| `FieldLimbs.Mul512` | contracts/token/src/poseidon.rs:111-125 | the eight limbs are the exact product |
| `FieldLimbs.FoldHigh` | contracts/token/src/poseidon.rs:130-148 | one reduction round keeps the residue and strictly lowers the value |
| `FieldLimbs.Reduce512` | contracts/token/src/poseidon.rs:130-155 | terminates with the residue below r of any 512-bit value |
| `FieldLimbs.Mul` | contracts/token/src/poseidon.rs:98-100 | the canonical residue of the product |
| `FieldLimbs.Pow5` | contracts/token/src/poseidon.rs:102-106 | the canonical residue of the fifth power |
| `FieldLimbs.CanonicalIsUnique` | contracts/swap/src/poseidon.rs:28-66 | limbs below r with the same residue are equal, so both copies of the decoder return the same limbs |
| `FieldLimbs.ToBytes` | contracts/token/src/poseidon.rs:59-65 | 32 little-endian bytes with the value of the limbs |
| `FieldLimbs.HasherInput` | contracts/swap/src/poseidon.rs:83-101 | the host hasher is given the big-endian bytes of the residue of its little-endian input |
| `PointEncoding.Borrowing` | contracts/verifier/src/lib.rs:173-184 | the borrow loop writes the digits of q - y; no borrow is left when y <= q |
| `PointEncoding.NegateG1Bytes` | contracts/verifier/src/lib.rs:168-186 | computes the specified negation on every 64-byte string |
| `PointEncoding.NegatedEncodes` | contracts/verifier/src/lib.rs:162-186 | x is kept; y becomes q - y when 0 < y < q and is unchanged otherwise |
| `PointEncoding.NegatedTwice` | contracts/verifier/src/lib.rs:162-186 | negating twice gives back the same bytes, for all 64-byte strings |
| `ByteStrings.LexIsNumeric` | contracts/verifier/src/lib.rs:515-524 | byte-wise comparison of equal-length big-endian strings is numeric comparison |
| `PointEncoding.PublicInputToFr` | contracts/verifier/src/lib.rs:515-524 | accepts exactly the encodings of numbers below r, as that number |
| `PointEncoding.AcceptedInputsAreUnique` | contracts/verifier/src/lib.rs:515-524 | two accepted inputs denote the same field element only if they are the same bytes |
| `Groth16.VkXOf` | contracts/verifier/src/lib.rs:357-373 | the multi-scalar multiplication is IC[0] + sum x_i * IC[i+1], refused exactly when some input is not canonical |
| `Groth16.VerifyAgainstVk` | contracts/verifier/src/lib.rs:342-389 | accepts exactly when the verification equation of the parsed key holds; the errors in order; `Groth16Layout.AcceptanceOverParts` says which bytes enter where |
| `Groth16.ReadVk` | contracts/verifier/src/lib.rs:549-587 | the parser, an offset walking over the bytes, reads the specified key |
| `Groth16Layout.VkLayout` | contracts/verifier/src/lib.rs:549-587 | a key put together from 64-byte alpha, 128-byte beta, gamma and delta and 64-byte IC points is read back part by part |
| `Groth16Layout.EveryVkHasParts` | contracts/verifier/src/lib.rs:536-547 | every string of an admitted length is such a key |
| `Groth16Layout.EquationOverParts` | contracts/verifier/src/lib.rs:342-389 | the equation checked of bytes is -A*B + alpha*beta + (IC_0 + x_1*IC_1 + ...)*gamma + C*delta over the parts |
| `Groth16Layout.AcceptanceOverParts` | contracts/verifier/src/lib.rs:342-389 | a proof A, B, C is accepted under a key given by its parts exactly if that sum is 0 modulo the group order; a wrong number of inputs and a non-canonical input are the two errors, exactly |
| `Groth16Layout.OtherLengthsAreRefused` | contracts/verifier/src/lib.rs:536-547 | any other key length and any other proof length is refused |
| `Groth16.CheckPairings` | contracts/verifier/src/lib.rs:375-388 | the four pairings multiply to one exactly when the verification equation is 0 modulo the group order |
| `BatchVerify.VerifyBatch` | contracts/verifier/src/lib.rs:412-508 | the K + 3 accumulated pairings multiply to one exactly when the challenge-weighted sum of the items' own equations is 0 modulo the group order; the first error in item order otherwise |
| `BatchVerify.PushItem` | contracts/verifier/src/lib.rs:455-494 | one loop iteration adds challenge * equation of its item to what the accumulators stand for |
| `BatchVerify.CombinedCheck` | contracts/verifier/src/lib.rs:496-507 | the final pairing product stands for the accumulated sum |
| `BatchVerify.ValidBatchPasses` | contracts/verifier/src/lib.rs:391-411 | if every item satisfies its own equation the batch passes for all challenges |
| `BatchVerify.InvalidItemHasOneChallenge` | contracts/verifier/src/lib.rs:391-411 | with the other challenges fixed, at most one residue of an invalid item's challenge lets the batch pass |
| `ModArith.Euclid` | contracts/verifier/src/lib.rs:391-411 | Euclid's lemma, from the definition of a prime: what makes the bad challenge unique |
| `KeyRegistry.AcceptsUnderNoOtherKey` | contracts/verifier/src/lib.rs:299-337 | `verify` accepts exactly under the current key or under the retained one inside its window |
| `GovernanceEffects.VerifyOutcomes` | contracts/verifier/src/lib.rs:299-337 | paused, proof length and missing key are reported in that order; every other outcome is that of the current key, or of the retained one when the current one does not accept and the window lasts |
| `KeyRegistry.VerifierContract.RegisterVerifyingKey` | contracts/verifier/src/lib.rs:207-217 | the whole new registry, or the error and no change |
| `KeyRegistry.VerifierContract.UpdateVerifyingKey` | contracts/verifier/src/lib.rs:231-248 | likewise; the outgoing key is retained with its expiry |
| `KeyRegistry.VerifierContract.RevokePreviousVk` | contracts/verifier/src/lib.rs:256-261 | forgets the retained key and its expiry, and nothing else |
| `KeyRegistry.VerifierContract.Verify` | contracts/verifier/src/lib.rs:299-337 | the specified result, errors of the previous key included |
| `KeyRegistry.VerifierContract.VerifyBatch` | contracts/verifier/src/lib.rs:412-508 | a batch is judged under the current key only; paused, empty, missing key and the first item error are reported in that order |
| `GovernanceSpec.PendingWasQueued` | contracts/governance/src/lib.rs:86-166 | whatever is pending was queued by one earlier event and has been pending unchanged since |
| `GovernanceSpec.ExecutedWasTimelocked` | contracts/governance/src/lib.rs:99-199 | every executed change was queued byte for byte at least 120,960 ledgers earlier and neither replaced nor cancelled since |
| `GovernanceSpec.ExecutionsAreSpaced` | contracts/governance/src/lib.rs:153-199 | two executions for the same circuit are at least the timelock apart |
| `GovernanceSpec.CurrentKeyWasExecuted` | contracts/governance/src/lib.rs:175-199 | the current key of a circuit is the payload of an executed change |
| `GovernanceSpec.PreviousKeyWasCurrent` | contracts/verifier/src/lib.rs:231-248 | a retained key was current until one rotation, whose window it carries |
| `GovernanceSpec.AcceptedUnderATimelockedKey` | contracts/verifier/src/lib.rs:299-337 | whenever `verify` accepts, it does so under a key queued and installed through the timelock: the current one, or one that was current until a rotation at most 17,280 ledgers ago |
| `GovernanceSpec.RetainedForTheWholeWindow` | contracts/verifier/src/lib.rs:219-261 | a rotated-out key stays retained for its full 17,280 ledgers unless revoked |
| `GovernanceSpec.SettingsChangeOnlyByExecution` | contracts/governance/src/lib.rs:99-117 | the token settings change only by executing the queued action |
| `GovernanceEffects.QueueSucceedsIff` | contracts/governance/src/lib.rs:86-166 | only the admin of an unpaused governance queues; the change replaces what was pending and falls due 120,960 ledgers later |
| `GovernanceEffects.CancelRemoves` | contracts/governance/src/lib.rs:119-123 | an authorized cancel, the guardian's or the admin's, removes what is pending in its slot, paused or not, and changes nothing else |
| `GovernanceEffects.CancelledNeedsRequeuing` | contracts/governance/src/lib.rs:271-284 | in any history a cancelled change is executed only if it was queued again after the cancel, and its whole timelock after that |
| `GovernanceEffects.OnlyTheAdminBrings` | contracts/governance/src/lib.rs:119-284 | without the admin's authorization a call changes nothing but, with the guardian's, removes pending changes |
| `GovernanceEffects.VkExecution` | contracts/governance/src/lib.rs:175-199 | the exact condition for a pending key to be installed, and the whole new registry: its circuit's key, the outgoing key retained for 17,280 ledgers, nothing else |
| `GovernanceEffects.ActionExecution` | contracts/governance/src/lib.rs:99-117 | the exact condition for a token action to be executed, and its effect: the one setting it names, set as it says |
| `GovernanceEffects.ApprovalWasExecuted` | contracts/governance/src/lib.rs:99-117 | an asset approved or barred since the deployment was so by an executed, timelocked action, the last word on that asset |
| `GovernanceEffects.RelayerWasExecuted` | contracts/governance/src/lib.rs:99-117 | likewise for relayers |
| `GovernanceEffects.MinimumWasExecuted` | contracts/governance/src/lib.rs:99-117 | likewise for the minimum deposit, which is positive wherever it was changed |
| `GovernanceEffects.RevokeDrops` | contracts/verifier/src/lib.rs:256-261 | revoking needs the admin, works paused or not, and drops the circuit's retained key and its expiry, nothing else |
| `GovernanceEffects.RevokedUntilNextRotation` | contracts/governance/src/lib.rs:207-212 | in any history a key retained after a revocation was retained by a later rotation |
| `Governance.ZKELLAGovernance.QueueVkUpdate` | contracts/governance/src/lib.rs:153-166 | the specified step: replaces any pending key and restarts the timelock, or changes nothing |
| `Governance.ZKELLAGovernance.ExecuteVkUpdate` | contracts/governance/src/lib.rs:175-199 | the specified step on governance and verifier together; a refusing verifier reverts both |
| `Governance.ZKELLAGovernance.QueueTokenAction` | contracts/governance/src/lib.rs:86-97 | the specified step for token actions |
| `Governance.ZKELLAGovernance.ExecuteTokenAction` | contracts/governance/src/lib.rs:99-117 | the specified step on governance and token together |
| `Governance.ZKELLAGovernance.CancelVkUpdate` | contracts/governance/src/lib.rs:271-275 | removes exactly the pending key, paused or not |
| `Governance.ZKELLAGovernance.GuardianCancel` | contracts/governance/src/lib.rs:280-284 | the specified step, paused or not; `GovernanceEffects.CancelRemoves` and `CancelledNeedsRequeuing` say what it does |
| `Governance.ZKELLAGovernance.RevokePreviousVk` | contracts/governance/src/lib.rs:207-212 | forwards to the verifier, paused or not |
| `IndexerSync.Syncer.SyncOnce` | indexer/src/sync.ts:56-127 | after any poll, cut short by a failure at any await, the tables are those of a prefix of the event history and everything below the persisted cursor is in them; whether it completed, how far it got and the new cursor are exactly those of `Poll`, and the cursor never moves back |
| `IndexerSync.PollReachesTheTip` | indexer/src/sync.ts:69-126 | progress: an uninterrupted poll on a node that stays at one tip stores every event up to it and moves the cursor right behind it, whatever the number of pages |
| `IndexerSync.FullPageContinues` | indexer/src/sync.ts:109-125 | after a full page the cursor stays at the last event's ledger and paging goes on behind that event |
| `IndexerSync.Syncer.StoreEvents` | indexer/src/sync.ts:87-100 | writes as many events of the page as awaits settle; those stored already change nothing, new ones extend the prefix, and the progress is exactly stated |
| `IndexerSync.Syncer.NothingBelowTheCursorIsMissing` | indexer/src/sync.ts:111-125 | every event from the start ledger up to the persisted cursor is stored |
| `IndexerSync.NotesBelowTheCursor` | indexer/src/db-sqlite.ts:56-61 | every note below the cursor is in the table exactly as emitted |
| `IndexerSync.NullifiersBelowTheCursor` | indexer/src/db-sqlite.ts:63-68 | every nullifier spent below the cursor is in the table, with the ledger of its first spend |
| `IndexerSync.StoredNullifierWasSpent` | indexer/src/sync.ts:97-99 | converse: whatever nullifier is stored was spent in the history, first at the ledger stored |
| `IndexerSync.TablesDependOnHistoryOnly` | indexer/src/sync.ts:56-127 | of two indexers of one history, however paged, interrupted and retried, the tables of the one that got less far are contained in the other's, notes and nullifiers alike; both hold every note below their cursors as emitted |
| `IndexerSync.TablesGrow` | indexer/src/db-sqlite.ts:56-68 | processing more of a history only adds rows |
| `NotePaging.SqliteGetNotesFrom` | indexer/src/db-sqlite.ts:70-94 | the loop form returns the specified page and next ledger |
| `NotePaging.PostgresGetNotesFrom` | indexer/src/db-postgres.ts:89-115 | the concat-and-filter form returns the same page and next ledger |
| `NotePaging.PageIsBlock` | indexer/src/db-sqlite.ts:76-87 | a page is exactly the block of rows from the first at or after its starting ledger to a stop |
| `NotePaging.PageEndsALedger` | indexer/src/db-sqlite.ts:76-92 | the stop is the end of a ledger, so `nextLedger` starts right behind the last row |
| `NotePaging.PageSize` | indexer/src/db-sqlite.ts:71-87 | a page has at least `limit` rows while that many are left, and beyond `limit` only rows of its boundary ledger |
| `NotePaging.PagesDeliverEverything` | indexer/src/db-sqlite.ts:70-94 | for every page size >= 1 the pages, resumed at each `nextLedger`, concatenate to exactly the notes at or after the starting ledger, each once, in leaf order |
| `NotePaging.ZKELLAAuditor.Sync` | sdk/src/wallet/auditor.ts:68-86 | terminates; adds exactly what the key recovers from the table at or after the last synced ledger, once and in leaf order, and ends behind the last row |
| `NotePaging.ZKELLAAuditor.Absorb` | sdk/src/wallet/auditor.ts:74-81 | the loop over a page appends exactly the newly recovered notes |
| `NotePaging.FreshSyncRecoversAll` | sdk/src/wallet/auditor.ts:68-86 | on unique commitments a first sync recovers every decryptable row exactly once |
| `NoteResuming.ResumingIsSafeIffSynced` | indexer/src/http.ts:258-260 | a client that finished at `cursor` misses nothing by resuming there, whatever the table grows into, exactly if it did not move or `cursor` is at most the `syncedLedger` published when it was served |
| `NoteResuming.SyncedTablesGrow` | indexer/src/sync.ts:102-126 | the table of one indexer is a prefix of that of any indexer of the same history that got further, and the rows added lie at or after its cursor |
| `NoteResuming.ResumingUpToTheSyncedLedger` | indexer/src/sync.ts:102-126 | a client no further than the serving indexer's cursor can resume with any indexer that got at least as far |
| `NoteResuming.NoteMissedByResuming` | indexer/src/db-sqlite.ts:92-93 | the failing input: two notes in ledger 5, one stored when the poll fails; the client is sent on to ledger 6 and never gets the second, which starting over would serve |
| `NoteResuming.InterruptedAndRetried` | indexer/src/sync.ts:56-127 | one poll that fails at its third await, and the same followed by a poll that completes, lead to exactly those two indexer states |
| `NoteResuming.SyncedAuditorRecoversOnce` | sdk/src/wallet/auditor.ts:52-86 | under that condition two auditor syncs recover what one sync over the later table recovers, nothing twice |
| `NotePaging.ResumedSyncIsOneSync` | sdk/src/wallet/auditor.ts:52-67 | two syncs recover what one sync over the grown table recovers when no added row lies in a ledger already passed |
| `NotePaging.StoredLedgersFollowLeaves` | indexer/src/sync.ts:87-100 | the table the sync loop builds has ledgers nondecreasing in leaf index |
| `NotePaging.EmittedNotesReachTheClient` | indexer/src/db-sqlite.ts:56-94 | end to end: every note emitted between the client's start and the indexer's cursor reaches the client, for every page size |
| `SanctionsTrees.Leaves` | sdk/src/prover/compliance.ts:38-42 | strictly ascending, from 0 to 2^248 - 1, with exactly the listed addresses strictly between |
| `SanctionsTrees.BracketIsUnique` | sdk/src/prover/compliance.ts:86-91 | at most one adjacent pair brackets an address, and a bracketed address is no leaf |
| `SanctionsTrees.BracketedIffUnlisted` | sdk/src/prover/compliance.ts:86-91 | some adjacent pair brackets an address exactly when it lies strictly between the sentinels and is not listed |
| `SanctionsTrees.FindLower` | sdk/src/prover/compliance.ts:86-90 | the search finds a bracketing pair exactly when there is one |
| `SanctionsTrees.EmptySubtreeRoots` | sdk/src/prover/compliance.ts:23-28 | the 33 roots of all-zero subtrees |
| `SanctionsTrees.NextLevel` | sdk/src/prover/compliance.ts:47-55 | pairing a level with the zero root for an odd end gives the next level of the padded tree, complete |
| `SanctionsTrees.BuildSanctionsTree` | sdk/src/prover/compliance.ts:38-57 | every stored level is that of the zero-padded depth-32 tree over the sorted list, and `root` is its root; fails exactly when the leaves exceed the longest array |
| `SanctionsTrees.PathFor` | sdk/src/prover/compliance.ts:93-105 | with `>>` and `^` on signed 32-bit integers: the sibling path and bits of the index modulo 2^32, failing exactly when that is 2^31 or more |
| `SanctionsTrees.MerkleProofFolds` | circuits/common/merkle.circom:8-47 | the circuit's interpolated swaps fold the leaf along its path at the position the bits spell |
| `SanctionsTrees.GenerateNonMembershipProof` | sdk/src/prover/compliance.ts:77-120 | each failure exactly: the leaves exceed an array, the address is listed or out of range, or the upper bracketing index is 2^31 or more; otherwise the input satisfies the circuit relation against the root of the padded tree |
| `SanctionsTrees.NoListedKeyProves` | circuits/compliance/non_membership.circom:26-100 | converse: whoever satisfies the circuit relation against the list's root has an unlisted address, or the hash collides |

## Left out

- NoteTrees.NoteTree.InsertMany: storage lifetimes are not modelled, and the `EMPTY_ROOTS` bytes are taken to be the hash chain their comment states.
- ShieldedTokens.ShieldedToken.Shield: takes the tokens before it writes, where the contract takes them last; a call is atomic, so no other call can see the difference.
- ShieldedTokens.ShieldedToken.ShieldBatch: takes the tokens before it writes, likewise.
- ShieldedTokens.ShieldedToken.Unshield: pays the recipient before it writes, where the contract pays last; a call is atomic, so no other call can see the difference. Events are not modelled.
- ShieldedTokens.ShieldedToken.Transfer: the relayer is likewise paid before the writes; a recipient balance that would overflow `i128` in the token contract is not modelled.
- ShieldedSwaps.ShieldedSwap.CommitSwap: refuses a short escrow before withdrawing instead of undoing the withdrawal, which `EscrowIsWholeOrRefused` shows to be the same; panics are told apart from success but not from each other.
- ShieldedSwaps.ShieldedSwap.RevealAndClaim: stated, like the two unwinding methods, for swaps with positive input and a recorded relayer once executed, which `SwapSafety.StepKeepsInv` shows of every recorded swap; the fairness proof is an accepted or rejected flag; what its circuit says about the price is not modelled. SHA-256 is collision free.
- BatchVerify.VerifyBatch: the Fiat-Shamir challenges are parameters; that SHA-256 makes them unpredictable is not modelled.
- Groth16.VerifyAgainstVk: the host's traps on byte strings that encode no curve point are not modelled.
- FieldLimbs.FromBytes: `u64::from_le_bytes` is the value of eight bytes; the second copy in the swap contract is covered by the same contract and `CanonicalIsUnique`.
- IndexerSync.Syncer.SyncOnce: decoding of event values and the uniqueness constraint on commitments are not modelled; a failing await is one that leaves its statement undone.
- NotePaging.ZKELLAAuditor.Sync: pages are served from a fixed table; growth between two syncs is `NoteResuming.SyncedAuditorRecoversOnce`. Note decryption is a function that keeps the public fields of a record.
- SanctionsTrees.GenerateNonMembershipProof: ends with the circuit's input; proving and encoding are not modelled. The built-in set, filter and sort are one insertion function.
- GovernanceSpec.AcceptedUnderATimelockedKey: histories start with no key registered and with governance as the only admin of verifier and token; handing over an admin role is not modelled.
- Circuit internals, witness building, the Poseidon permutation and its constants, curve and pairing arithmetic: taken as the relations and operations above.
- `contracts/compliance`, `contracts/viewing_keys`, the interface crates, initialization, pause switches of the token and admin hand-over: guards and writes that would add only easy members.
- The indexer's HTTP server, authentication and rate limits, the relayer client, key derivation, note encryption and wallet submission: input, output and thin wrappers.
