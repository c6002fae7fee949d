# Worker proposals: a Dafny model of the funding policy

This project models the `workerproposal` smart contract (an EOSIO contract, written in C++).
The contract funds work in voting cycles. A proposer submits a proposal and pays a fee into
`eosio.saving`. The proposer then links the proposal to a ballot they published on the
`eosio.trail` voting service. After each ballot window closes, anyone who signs may `claim`.
Each claim settles one cycle:

- it refunds the fee once, when turnout and the yes share are high enough;
- it releases the requested amount when yes beats no with a quorum of voters;
- it always advances the cycle counter;
- it closes the proposal after the last cycle.

The model is functional:

- Each action is a pure function from the persisted `State` to a `Result`. On `Err(kind)`
  nothing persists and no transfer is sent. On `Ok(Commit(state, transfers))` the new state is
  committed along with its transfer requests. The `State` holds the `wp_env` configuration
  singleton and the proposal table.
- Authority checks become membership in the set of accounts that signed the transaction.
- The voting service is a read-only `Trail.Snapshot`: its ballot table and its environment
  singleton, which holds the count of registered voters.
- The block time `now` is a parameter.
- Every action first seeds the configuration, as the contract's constructor does for each
  action it dispatches.

Field widths follow the C++ declarations. Unsigned 64-bit arithmetic and the 16-bit cycle
counter wrap explicitly. Casts between `int64_t` and `uint64_t` are written out. The test
`current_cycle == cycles - 1` is compared in `int`, as C++ integer promotion does.

Modules, one per concern:

- `Widths`: fixed-width integers.
- `Outcomes`: `Singleton` (a singleton table, possibly empty) and `Result`.
- `Records`: the row and configuration layouts, the table, transfers and errors.
- `Trail`: the voting service's records.
- `Config`: constructor seeding.
- `Fee`: the submission fee.
- `FeeRange`: the fee on amounts within the token's asset range.
- `Policy`: the claim thresholds and the per-cycle row update.
- `Actions`: `submit`, `linkballot` and `claim`.
- `Lifecycle`: sequences of transactions and what they can do to one proposal.

Quirks of the code are modelled as written, and each has a lemma that exhibits it:

- A proposal of zero cycles is never closed (`Lifecycle.ZeroCyclesNeverClose`,
  `Lifecycle.ZeroCyclesUnboundedClaims`). So the "at most `cycles` claims" bound holds only for
  one cycle or more.
- `linkballot` checks neither the status nor the stored proposer. A finished proposal can
  therefore be linked again and claimed past its cycle count (`Lifecycle.RelinkReopens`).
- `claim` authenticates its caller but never compares the caller with the proposer or the
  receiver (`Lifecycle.ClaimIgnoresCaller`).
- `submit` checks neither the cycle count nor the sign of the amount. The fee product wraps
  (`Fee.NegativeAmountWraps`).

Two more points about the code, which the model follows:

- `claim` checks the caller's authority second, right after it looks up the proposal
  (cpp:93-96), and before it reads the ballot.
- The fee product is an unchecked 64-bit multiplication (cpp:32), so nothing guards it
  against overflow.

## Model

| member | source | states |
|---|---|---|
| Widths.WrapU16 | contracts/worker.proposals/worker.proposals.cpp:147 | storing `current_cycle + 1` into a `uint16_t` keeps it modulo 2^16: unchanged below 2^16, congruent otherwise |
| Widths.WrapU64 | contracts/worker.proposals/worker.proposals.cpp:32 | the unsigned 64-bit fee product is kept modulo 2^64: unchanged below 2^64, congruent otherwise |
| Widths.ToUnsigned | contracts/worker.proposals/worker.proposals.cpp:53 | `uint64_t(amount.amount)` keeps non-negative amounts and maps negative ones to values of at least 2^63 with the same bit pattern |
| Widths.ToSigned | contracts/worker.proposals/worker.proposals.cpp:121-126 | `int64_t(prop.fee)` and `int64_t(prop.amount)` keep values below 2^63 and turn larger ones negative, same bit pattern |
| Widths.SignedRoundTrip | contracts/worker.proposals/worker.proposals.cpp:53 | a signed amount stored as `uint64_t` and read back through `int64_t` in `claim` is recovered exactly |
| Config.Seed | contracts/worker.proposals/worker.proposals.cpp:8-22 | an absent singleton yields exactly (self, 2,500,000, 3, 500,000); a present one is used unchanged |
| Config.SeedIdempotent | contracts/worker.proposals/worker.proposals.cpp:8-22 | seeding, storing and seeding again gives the configuration of seeding once |
| Fee.Quota | contracts/worker.proposals/worker.proposals.cpp:32 | without wrap-around, the percentage part is the floor of amount × percentage / 100 (100·q ≤ amount·pct < 100·(q+1)) |
| Fee.FeeFor | contracts/worker.proposals/worker.proposals.cpp:32-33 | the fee is at least `fee_min`, at least the percentage part, and equal to one of the two |
| Fee.FeeRule | contracts/worker.proposals/worker.proposals.cpp:32-33 | for non-negative amounts whose product fits 64 bits, fee = max(floor(amount·pct/100), fee_min), and the fee is the minimum exactly when amount·pct < 100·(fee_min+1) |
| FeeRange.NoWrapAtSmallPercentages | contracts/worker.proposals/worker.proposals.cpp:32 | for amounts in [0, 2^62) at a percentage of at most 4 (the default is 3) the product never wraps, so the fee is exactly max(floor(amount·pct/100), fee_min) |
| Fee.DefaultFeeExample | contracts/worker.proposals/worker.proposals.cpp:32-33 | 1,000,000 at 3 % with minimum 500,000 costs 500,000; 100,000,000 costs 3,000,000 |
| Fee.NegativeAmountWraps | contracts/worker.proposals/worker.proposals.cpp:32 | an amount of -1 is charged a fee of 184,467,440,737,095,516, because the unchecked cast and product wrap |
| Policy.QuorumThreshold | contracts/worker.proposals/worker.proposals.cpp:114 | the principal quorum is a tenth of the registered voters rounded down: 10·q ≤ voters < 10·(q+1) |
| Policy.FeeVoterThreshold | contracts/worker.proposals/worker.proposals.cpp:117 | the refund's voter quorum is a twentieth of the registered voters rounded down: 20·q ≤ voters < 20·(q+1) |
| Policy.FeeVoteThreshold | contracts/worker.proposals/worker.proposals.cpp:111-118 | the refund's vote share is a fifth of the votes cast (yes + no + abstain) rounded down: 5·q ≤ cast < 5·(q+1) |
| Policy.RefundDue | contracts/worker.proposals/worker.proposals.cpp:120 | the refund test holds iff fee > 0, yes > 0, 5·(yes+1) > yes+no+abstain (yes ≥ a fifth of votes cast) and 20·(unique+1) > total voters (unique ≥ a twentieth of the voters), both directions, with no division |
| Policy.PrincipalDue | contracts/worker.proposals/worker.proposals.cpp:125 | the principal test holds iff yes > no and 10·(unique+1) > total voters (unique ≥ a tenth of the voters), both directions, with no division |
| Policy.NoRefundWithoutYesVotes | contracts/worker.proposals/worker.proposals.cpp:120 | a tally with no yes votes never refunds, whatever the turnout |
| Policy.FullPayoutScenario | contracts/worker.proposals/worker.proposals.cpp:111-127 | 100 voters, yes 15, no 5, 12 unique: both tests pass and the payout is fee + principal |
| Policy.LowQuorumScenario | contracts/worker.proposals/worker.proposals.cpp:114-125 | 100 voters, 9 unique: a yes majority releases no principal |
| Policy.Payout | contracts/worker.proposals/worker.proposals.cpp:110-127 | the cycle's payout is the signed fee if the refund is due plus the signed principal if it is due, each test independent of the other; zero if neither |
| Policy.Advance | contracts/worker.proposals/worker.proposals.cpp:120-148 | the row written back differs only in status, fee and current_cycle; the counter advances modulo 2^16 whatever the tally; status becomes inactive exactly when the claimed cycle was `cycles - 1`; the fee is zeroed exactly when refunded |
| Policy.RefundOnce | contracts/worker.proposals/worker.proposals.cpp:120-123 | after a refund, no later tally refunds again, and a later payout is only the principal |
| Actions.NewProposal | contracts/worker.proposals/worker.proposals.cpp:45-59 | a new row carries the inputs, the amount's unsigned bit pattern and the fee, with ballot 0, window 0–0, status inactive and cycle 0 |
| Actions.Submit | contracts/worker.proposals/worker.proposals.cpp:28-62 | fails iff the proposer did not sign (or the key space is exhausted); otherwise adds exactly one row under the next key, which is not already present in a valid table, leaves every other row unchanged, stores a fee of at least `fee_min`, and emits exactly one transfer from the proposer to `eosio.saving` of that fee read as a signed amount, equal to the stored fee whenever it is below 2^63 |
| Actions.LinkBallot | contracts/worker.proposals/worker.proposals.cpp:64-87 | fails, in order, for a missing signature, a missing proposal, a missing ballot or a ballot published by another account; otherwise changes only the row's ballot id, window and status (now active), emitting no transfer |
| Actions.Claim | contracts/worker.proposals/worker.proposals.cpp:89-149 | fails, in order, for a missing proposal, a missing signature, a missing ballot, an open window (`now ≤ end_time`), an inactive proposal or a missing voting environment; otherwise rewrites only that row as `Advance` does and emits one transfer of the payout to the receiver iff the payout is positive, none otherwise |
| Actions.ClaimTransfersIffReleased | contracts/worker.proposals/worker.proposals.cpp:120-135 | with fee and amount below 2^63, a committed claim sends at most one transfer; it sends one iff the refund is due or a non-zero principal is due; that transfer goes from the contract to the receiver for refund part + principal part |
| Lifecycle.NextPreservesInvariant | contracts/worker.proposals/worker.proposals.hpp:35-38 | every action keeps each row under its own id with the next key free, and writes no status but 0 and 1 |
| Lifecycle.RunPreservesInvariant | contracts/worker.proposals/worker.proposals.hpp:35-38 | the same holds along any sequence of transactions |
| Lifecycle.NextPreservesValid | contracts/worker.proposals/worker.proposals.hpp:38 | every action keeps the table keyed by id with the next key above all keys |
| Lifecycle.OtherCallsKeepRow | contracts/worker.proposals/worker.proposals.cpp:45-46 | in a valid table, a call that neither links nor claims a proposal leaves its row unchanged |
| Lifecycle.AtMostRemainingClaims | contracts/worker.proposals/worker.proposals.cpp:140-148 | as long as no call commits a further link of the proposal (aborted link attempts are allowed), an active proposal below its cycle count commits at most `cycles - current_cycle` claims, and a closed one none, however calls interleave |
| Lifecycle.AtMostCyclesClaims | contracts/worker.proposals/worker.proposals.cpp:140-148 | a proposal linked once at cycle 0, with at least one cycle and no further committed link (failed link attempts allowed), commits at most `cycles` claims |
| Lifecycle.ClaimsUntilClosed | contracts/worker.proposals/worker.proposals.cpp:140-148 | repeating a ready claim commits once per remaining cycle, then leaves the proposal inactive at `current_cycle = cycles` |
| Lifecycle.ExactlyCyclesClaims | contracts/worker.proposals/worker.proposals.cpp:105-148 | a linked proposal of N ≥ 1 cycles commits exactly N successive claims, and the next claim fails as closed |
| Lifecycle.ZeroCyclesNeverClose | contracts/worker.proposals/worker.proposals.cpp:140-142 | an active proposal of zero cycles is still active after any sequence of transactions |
| Lifecycle.ZeroCyclesUnboundedClaims | contracts/worker.proposals/worker.proposals.cpp:140-147 | a ready claim on an active proposal of zero cycles commits every time, for any number of repetitions |
| Lifecycle.AtMostOneRefund | contracts/worker.proposals/worker.proposals.cpp:120-123 | along any sequence of transactions, a proposal's fee is refunded at most once, and never once it is zero |
| Lifecycle.RelinkReopens | contracts/worker.proposals/worker.proposals.cpp:64-84 | a finished proposal (inactive, counter at `cycles`) can be linked again, and the next claim then commits without closing it, advancing past `cycles` |
| Lifecycle.LinkEnablesClaim | contracts/worker.proposals/worker.proposals.cpp:79-100 | with a ballot table keyed by ballot id, a claim after a successful link succeeds once the window has closed |
| Lifecycle.CycleDurationUnused | contracts/worker.proposals/worker.proposals.hpp:41-48 | configurations that differ only in `cycle_duration` give every action the same verdict, table and transfers |
| Lifecycle.ClaimIgnoresCaller | contracts/worker.proposals/worker.proposals.cpp:96 | any two signed callers get the same result from `claim` |

## Left out

- Token settlement: the `eosio.token` transfers are emitted as `Transfer` records only, and
  balances are not modelled. Any failure of the token transfer aborts the action on chain and is
  not modelled. Examples are a lack of funds, a non-positive quantity, a sender equal to the
  receiver (a `claim` whose receiver is the contract itself), or a receiver that is not an
  account.
- Asset range and symbol checks inside the token library are not modelled, because that library
  is not part of this model. These are the magnitude limit of 2^62 and the overflow assertions
  of asset addition and comparison. All amounts are taken to be of the one token symbol, and the
  symbol of the submitted amount is ignored, as `submit` ignores it.
- Vote tallies are non-negative counts. Their asset form and the voting service's own headers
  are not part of this model, so the ballot fields are the ones `claim` and `linkballot` read.
- Actions.Submit: the table's id generator is modelled as a counter above every key in use.
  Running out of ids is the error `IdsExhausted` once that counter reaches 2^64. The
  generator's exact library limit is not modelled.
- `cycle_duration` is stored by the seeding but never read, so it has no further role.
- `title` and `ipfs_location` are stored as strings and never interpreted.
- `print` diagnostics, the action dispatch macro, the empty destructor and the RAM payer of
  `emplace` and `modify` are plumbing and are left out.
- The order of the fee transfer and the row insertion inside `submit` is not modelled, because
  both commit together or not at all.
