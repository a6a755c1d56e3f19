# SoroSusu in Dafny

SoroSusu is a Soroban smart contract for rotating savings and credit
associations (ROSCAs). An admin creates a circle with a fixed contribution.
Members join it, and its payout queue is finalized in join order or in a
shuffled order. The admin then pays members one at a time and rolls the
circle into a new cycle once everyone has been paid. Members can also vote
to dissolve the circle and take back what they put in. Beside the circles,
the contract keeps protocol-level state:

- a payout fee in basis points, paid to a treasury;
- a global roster with a credit map, changed by kicking or swapping members;
- a custody ledger that users may drain once the admin has been inactive
  for seven days.

A second variant of the contract (`temp_lib.rs`) uses counter-based circle
records with a rolling deadline. A deposit made after the deadline books a
1% penalty into a group reserve.

The model is imperative, like the contract. Each contract's storage becomes
a Dafny class whose fields the methods update in place; `temp_lib.rs`'s
records are datatype values held in its maps. Each method states
its whole new state and its error cases. The state "before any write" is
kept on every error path (`unchanged(this)`). The stored invariants are
each class's `Valid()` predicate, and every method preserves it. For
`Circle` the invariant says:

- the three per-member sequences have the same length, at most 50, and no
  member appears twice;
- the payout index and the distributed volume both follow from the count
  of paid flags;
- the dissolution votes are distinct members;
- the payout queue is a permutation of the members who had joined when it
  was finalized.

Files:

- `common.dfy` (`SusuCommon`): addresses, `u64`, the `Error` enumeration and
  its codes, result wrappers, token transfers as records, and
  `find_member_index`.
- `circle.dfy` (`Circles`): the `Circle` record and its entry points, and
  the circle counter.
- `protocol.dfy` (`Protocol`): fee, roster, credit, custody and timer state.
- `temp_lib.dfy` (`TempLib`): the late-penalty variant.
- `scenarios.dfy` (`Scenarios`): the contract's unit tests and a few further
  scenarios, replayed against the contracts. Each scenario proves the values
  the test asserts.

Where the code departs from what a ROSCA is expected to do, the model
follows the code:

- `join_circle` is accepted after `finalize_circle`. The payout queue is
  therefore a permutation only of the members who had joined by then, that
  is, a prefix of `members`, and not of all members.
- `create_circle` accepts any contribution, including zero or a negative one.
- `process_payout` moves no tokens, needs no finalized queue and ignores the
  queue order. As a result `CircleNotFinalized` is never raised.
- `withdraw_pro_rata` moves no tokens either. It only reports the amount
  and zeroes the ledger entry.
- `initialize` also empties the custody ledger, so balances deposited
  before `initialize` are dropped.
- `propose_dissolution` records a vote but never dissolves the circle.
- `withdraw_pro_rata` subtracts only the payout flag of the current cycle.
  A member paid in an earlier cycle, before a rollover, can therefore still
  withdraw a full contribution once the circle is dissolved later.
- `USER_BAL_KEY` holds one amount per user, not one per token, and
  `emergency_withdraw` pays that amount out in whatever token the caller
  names.
- No entry point grows an empty roster. `initialize` writes `MEMBERS_KEY`
  and `CONTRIBS_KEY` empty, and `kick_member` and the swaps write them only
  after finding a member there, so they can only fail with MemberNotFound
  unless the roster is seeded from outside.

## Model

| member | source | states |
|---|---|---|
| SusuCommon.Code | src/lib.rs:63-84 | every error has its `#[repr(u32)]` code in 1001..1017, with CircleNotFound at 1001 and MemberNotFound at 1017 |
| SusuCommon.CodeInjective | src/lib.rs:63-84 | distinct errors have distinct codes, so a client can tell them apart |
| SusuCommon.FindMemberIndex | src/lib.rs:650-657 | the linear search returns the index of the first occurrence of the target, and None exactly when the target is absent |
| Circles.AllTrue | src/lib.rs:424-424 | the `iter().all` check holds exactly when every flag is true |
| Circles.Circle.constructor | src/lib.rs:315-336 | a new circle is in cycle 1, open, with empty sequences, a zero index and zero volume, and satisfies the circle invariant |
| Circles.CircleRegistry.constructor | src/lib.rs:100-106 | the absent counter reads as 0 and no circle is stored |
| Circles.CircleRegistry.CreateCircle | src/lib.rs:100-106 | `create_circle` with `next_circle_id`: the id is the previous count plus one, the counter is stored, the id was unused, and the new circle is empty in cycle 1 |
| Circles.CircleRegistry.ReadCircle | src/lib.rs:89-94 | a stored circle is returned; an absent id is CircleNotFound; stored ids lie in 1..count |
| Circles.Circle.Join | src/lib.rs:338-362 | fails with AlreadyDissolved, AlreadyJoined or MaxMembersReached (50 members) in that order and changes nothing; otherwise it appends the member, a false flag and one contribution, keeping the lengths equal, at most 50 and duplicate-free |
| Circles.Circle.Finalize | src/lib.rs:364-389 | fails with Unauthorized or AlreadyDissolved before any write; does nothing once a queue exists; otherwise the queue is exactly `members` (sequential) or the supplied permutation of `members` (random) |
| Circles.Circle.ProcessPayout | src/lib.rs:391-435 | fails with Unauthorized, AlreadyDissolved, NotMember or PayoutAlreadyReceived and changes nothing; otherwise it sets only the recipient's flag and adds 1 to the index and the contribution to the volume, keeping index = number of paid flags and volume = contribution × index; the cycle-completed event (the returned flag) fires exactly when every member has now been paid |
| Circles.Circle.RecordPayout | src/lib.rs:420-422 | the writes of a successful payout raise one unpaid flag and add one payout and one contribution, preserving the circle invariant |
| Circles.Circle.Rollover | src/lib.rs:437-468 | fails with Unauthorized or CycleNotComplete (some flag false) and changes nothing; otherwise it increments the cycle, zeroes index and volume, and resets the flags to as many falses; members, queue and ledger are untouched; there is no dissolution check |
| Circles.Circle.RolloverChecked | src/lib.rs:437-468 | the same rollover, refusing a dissolved circle with AlreadyDissolved and leaving every member's refundable amount as it was |
| Circles.Circle.ProposeDissolution | src/lib.rs:470-487 | fails with AlreadyDissolved or NotMember; otherwise it adds the caller's vote at most once and never dissolves |
| Circles.Circle.VoteDissolve | src/lib.rs:489-515 | fails with AlreadyDissolved, NotMember or AlreadyVoted and changes nothing; otherwise it appends the vote and sets dissolved exactly when votes × 2 > members; a dissolved circle stays dissolved |
| Circles.Circle.WithdrawProRata | src/lib.rs:517-550 | fails with NotDissolved or NotMember; returns the ledger entry minus one contribution if the member was paid, which may be zero or negative; zeroes only that entry, and only when the amount is positive; a positive amount is exactly one unpaid contribution, and afterwards nothing more is refundable |
| Circles.Circle.CycleInfo | src/lib.rs:589-596 | the cycle is at least 1, the payout count equals the number of paid flags and at most the member count, and the volume is contribution × count |
| Circles.Circle.PayoutStatus | src/lib.rs:598-601 | one flag per member, whose number of trues is the payout index |
| Circles.Circle.PayoutQueue | src/lib.rs:584-587 | the queue is no longer than the roster and is a permutation of the members who had joined before finalization |
| Protocol.EmergencyUnlocked | src/lib.rs:175-180 | with the saturating unlock time, the valve opens exactly when now > last active + seven days |
| Protocol.ProtocolFee | src/lib.rs:283-294 | fee is 0 at 0 bps; otherwise it is gross × bps / 10000 rounded toward zero, for every sign of gross and every rate: the floor for gross ≥ 0 and minus the floor of −gross × bps / 10000 for gross < 0; 0 ≤ fee ≤ gross for gross ≥ 0 and gross ≤ fee ≤ 0 for gross < 0 at a rate of at most 100% |
| Protocol.Protocol.constructor | src/lib.rs:556-578 | absent storage keys read as no admin, zero fee, no treasury, and empty roster, credits and balances |
| Protocol.Protocol.RequireAdmin | src/lib.rs:603-611 | passes exactly when an admin is stored, and fails with Unauthorized otherwise |
| Protocol.Protocol.Initialize | src/lib.rs:114-133 | fails with Unauthorized if an admin exists; otherwise it stores the admin, a zero fee, empty roster, credits and balances, and starts the timer |
| Protocol.Protocol.SetProtocolFee | src/lib.rs:135-151 | fails with Unauthorized, or with InvalidFeeConfig above 10000 bps, and changes nothing; otherwise it stores fee and treasury and restarts the timer |
| Protocol.Protocol.Deposit | src/lib.rs:153-170 | pulls the amount from the user into the contract and adds it to the user's balance |
| Protocol.Protocol.EmergencyWithdraw | src/lib.rs:172-197 | fails with EmergencyWithdrawalNotAvailable exactly when seven days have not passed; otherwise it returns the whole positive balance to the user and removes the entry |
| Protocol.Protocol.AdminAction | src/lib.rs:199-203 | an admin call restarts the inactivity timer; without an admin it is Unauthorized |
| Protocol.Protocol.KickMember | src/lib.rs:205-255 | fails with Unauthorized, MemberNotFound or PenaltyExceedsContribution (credit < penalty) and changes nothing; otherwise it removes the member from roster and credits, refunds credit − penalty ≥ 0 to the member and sends a positive penalty to the treasury when one is set |
| Protocol.Protocol.ApplyMemberSwap | src/lib.rs:613-648 | fails with MemberNotFound or MemberAlreadyExists (new member present and distinct) and changes nothing; otherwise the new member takes the old one's index, every other position is unchanged, and the old credit moves to the new member |
| Protocol.Protocol.SwapMember | src/lib.rs:257-261 | the member-signed swap has exactly the effect of `apply_member_swap` |
| Protocol.Protocol.SwapMemberByAdmin | src/lib.rs:263-274 | the admin swap is Unauthorized without an admin, otherwise `apply_member_swap` that restarts the timer on success |
| Protocol.Protocol.ComputeAndTransferPayout | src/lib.rs:276-309 | a positive fee with no treasury is InvalidFeeConfig; otherwise the net goes to the recipient and a positive fee to the treasury, and for gross ≥ 0 the two add up to gross with 0 ≤ net ≤ gross |
| Protocol.Protocol.FeeBasisPoints | src/lib.rs:569-574 | the stored fee never exceeds 10000 bps |
| TempLib.LatePenalty | temp_lib.rs:152-171 | no penalty up to and including the deadline; strictly after it, 1% of the contribution rounded down |
| TempLib.SoroSusu.constructor | temp_lib.rs:6-17 | every storage key starts absent |
| TempLib.SoroSusu.Init | temp_lib.rs:66-73 | the counter is set to 0 only if absent; the admin is always overwritten |
| TempLib.SoroSusu.CreateCircle | temp_lib.rs:75-108 | the id is the previous count plus one and is stored; the circle is active, empty, at recipient 0, with deadline now + cycle; the reserve is created at 0 only if absent |
| TempLib.SoroSusu.JoinCircle | temp_lib.rs:110-142 | panics for a missing circle, a full circle or an address that already has a member record, changing nothing; otherwise it stores a fresh member and adds 1 to the count, keeping count ≤ max |
| TempLib.SoroSusu.Deposit | temp_lib.rs:144-194 | panics for a missing circle or a non-member; otherwise it pulls the full contribution, adds 1% to the reserve exactly when now > deadline, marks the member as contributed with count + 1 and time now, rolls the deadline to now + cycle and records the deposit |
| Scenarios.PayoutAndCycleCompletion | src/lib.rs:813-837 | three payouts at 100 give cycle info (1, 3, 300), and only the third fires the completion event |
| Scenarios.GroupRollover | src/lib.rs:839-862 | after rollover the info is (2, 0, 0), the flags are all false and the queue is unchanged |
| Scenarios.SequentialQueue | src/lib.rs:793-811 | a sequential circle of five is finalized in join order |
| Scenarios.RandomQueue | src/lib.rs:773-791 | a random circle of five is finalized to the shuffle, which holds all five members |
| Scenarios.MaxMembersEnforced | src/lib.rs:755-771 | after 50 joins the next join is MaxMembersReached |
| Scenarios.DissolutionQuorum | src/lib.rs:489-515 | with five members, two votes leave the circle open and the third dissolves it |
| Scenarios.WithdrawTwice | src/lib.rs:517-550 | a positive refund of 100 is followed by a refund of 0 |
| Scenarios.RefundAfterRolloverOfDissolvedCircle | src/lib.rs:437-468 | a paid member refunds 0 from a dissolved circle, but 100 after the admin rolls that circle over |
| Scenarios.RefundWithCheckedRollover | src/lib.rs:437-468 | with the dissolution check the rollover is AlreadyDissolved and the paid member still refunds 0 |
| Scenarios.ProtocolFeeConfiguration | src/lib.rs:726-753 | 10001 bps is InvalidFeeConfig; the getters report 0 and no treasury, then 50 and the treasury |
| Scenarios.EmergencyWithdrawAfterSevenDays | src/lib.rs:864-885 | a deposit of 500 is returned whole one second after the seven-day delay, leaving a balance of 0 |
| Scenarios.AdminActionRestartsDelay | src/lib.rs:199-203 | six days after an admin action the valve is still shut |
| Scenarios.SwapReplacesSpotAndMovesCredit | src/lib.rs:887-915 | the new member takes position 0, inherits the credit of 750, the old entry is gone and the other credit is kept |
| Scenarios.SwapIsReversible | src/lib.rs:613-648 | swapping a member out and the same member back in restores the roster and the credit map exactly |
| Scenarios.LateDepositPenalty | temp_lib.rs:423-475 | a deposit of 1000 two weeks late books a reserve of 10, pulls all 1000 and marks the member with count 1 |
| Scenarios.OnTimeDepositNoPenalty | temp_lib.rs:477-520 | an on-time deposit leaves the reserve at 0 |

## Left out

- Token transfers are foreign calls into the token contract. They are returned as `Transfer` records. Token balances, and failing transfers, are not modelled.
- `require_auth` is the host's signature check and is taken as satisfied. `require_admin` is modelled only in its storage part: no admin stored means Unauthorized.
- The ledger clock, the shuffle of `env.prng()` and the contract's own address are parameters. A random finalization takes any permutation of the members.
- Event publishing is not modelled. Three event payloads are returned values instead: the cycle-completed event of `process_payout` is its returned flag, the `GROUP_ROLL` event of `rollover_group` is the new cycle number `Rollover` returns, and the `Kicked` event of `kick_member` is the `Kicked` record `KickMember` returns.
- Storage plumbing is replaced by fields, and the host rollback by leaving the state unchanged on every error path. The circle counter and the circles map are fields of `CircleRegistry`; entry points take the `Circle` itself rather than an id, so a missing id is `ReadCircle`'s CircleNotFound. The registry's invariant does not carry the stored circles' `Valid()` or their distinctness, so a circle read back through `ReadCircle` cannot be passed to an entry point without that being established first.
- Machine integers (`i128`, `u64`, `u32`, `u16`) are unbounded, so overflow panics are not modelled. The one saturating add of timestamps is written out.
- `get_last_active_timestamp`, `treasury_address` and `get_user_balance` are plain reads of storage and carry no contract of their own. `get_user_balance` is `UserBalance`, a read through `GetOrZero`; what it reports is stated by the balance clauses of `Deposit` and `EmergencyWithdraw`. `get_circle` is `ReadCircle`.
- The `#[cfg(test)]` modules are not modelled as code. Some of their tests are restated as scenarios. The fuzz tests of `temp_lib.rs` (lines 212-421) are not restated.
- `validate_graceful_exit.rs` is not part of this model. It only assigns enum values and asserts them.
- Protocol.Protocol.RequireAdmin: does not check that the caller is the stored admin, because that is the host's signature check.

## Findings

| source | as written | input that shows it | evidently intended | confidence | as-written member | corrected member |
|---|---|---|---|---|---|---|
| src/lib.rs:437-468 | `rollover_group` does not check `is_dissolved`, so its reset of the payout flags also applies to a dissolved circle | contribution 100; one member joins, is paid, and votes to dissolve (1 × 2 > 1); the admin rolls the circle over; `withdraw_pro_rata` then returns 100 to a member who has already been paid | a dissolved circle is terminal, so a rollover cannot change what its members may withdraw | not executed | Scenarios.RefundAfterRolloverOfDissolvedCircle | Circles.Circle.RolloverChecked |
