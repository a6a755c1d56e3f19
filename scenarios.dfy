/**
 * The unit tests of src/lib.rs and temp_lib.rs, and a few further
 * scenarios, replayed against the model's contracts. Each scenario
 * returns what the test observes and proves the value the test asserts.
 */
module Scenarios {
  import opened SusuCommon
  import opened Circles
  import P = Protocol
  import T = TempLib

  /** Joins `people` in order to an empty circle. */
  method JoinAll(circle: Circle, people: seq<Address>)
    requires circle.Valid() && circle.members == [] && !circle.isDissolved
    requires NoDuplicates(people) && |people| <= MAX_MEMBERS
    modifies circle
    ensures circle.Valid() && circle.members == people && !circle.isDissolved
    ensures circle.payoutQueue == old(circle.payoutQueue)
    ensures circle.cycleNumber == old(circle.cycleNumber)
    ensures forall k :: 0 <= k < |people| ==> !circle.hasReceivedPayout[k]
    ensures circle.currentPayoutIndex == 0 && circle.totalVolumeDistributed == 0
    ensures circle.dissolutionVotes == old(circle.dissolutionVotes)
    ensures forall k :: 0 <= k < |people| ==> circle.contributionsPaid[k] == circle.contribution
  {
    for i := 0 to |people|
      invariant circle.Valid() && circle.members == people[..i] && !circle.isDissolved
      invariant circle.payoutQueue == old(circle.payoutQueue)
      invariant circle.cycleNumber == old(circle.cycleNumber)
      invariant forall k :: 0 <= k < i ==> !circle.hasReceivedPayout[k]
      invariant circle.dissolutionVotes == old(circle.dissolutionVotes)
      invariant forall k :: 0 <= k < i ==> circle.contributionsPaid[k] == circle.contribution
    {
      assert people[i] !in people[..i];
      var r := circle.Join(people[i]);
      assert people[..i + 1] == people[..i] + [people[i]];
    }
    assert people[..|people|] == people;
    CountTrueNone(circle.hasReceivedPayout);
  }

  /**
   * Pays every member of a circle in which nobody has been paid yet, in
   * join order; the returned flags are the cycle-completed events.
   */
  method PayAll(circle: Circle) returns (events: seq<bool>)
    requires circle.Valid() && !circle.isDissolved
    requires forall k :: 0 <= k < |circle.hasReceivedPayout| ==> !circle.hasReceivedPayout[k]
    modifies circle
    ensures circle.Valid() && !circle.isDissolved
    ensures circle.members == old(circle.members) && circle.payoutQueue == old(circle.payoutQueue)
    ensures circle.cycleNumber == old(circle.cycleNumber)
    ensures circle.dissolutionVotes == old(circle.dissolutionVotes)
    ensures circle.contributionsPaid == old(circle.contributionsPaid)
    ensures forall k :: 0 <= k < |circle.hasReceivedPayout| ==> circle.hasReceivedPayout[k]
    ensures circle.currentPayoutIndex == |circle.members|
    ensures |events| == |circle.members|
    ensures forall k :: 0 <= k < |events| ==> (events[k] <==> k == |events| - 1)
  {
    events := [];
    CountTrueNone(circle.hasReceivedPayout);
    for i := 0 to |circle.members|
      invariant circle.Valid() && !circle.isDissolved
      invariant circle.members == old(circle.members) && circle.payoutQueue == old(circle.payoutQueue)
      invariant circle.cycleNumber == old(circle.cycleNumber)
      invariant circle.dissolutionVotes == old(circle.dissolutionVotes)
      invariant circle.contributionsPaid == old(circle.contributionsPaid)
      invariant forall k :: 0 <= k < |circle.hasReceivedPayout| ==> (circle.hasReceivedPayout[k] <==> k < i)
      invariant circle.currentPayoutIndex == i
      invariant |events| == i
      invariant forall k :: 0 <= k < i ==> (events[k] <==> k == |circle.members| - 1)
    {
      IndexOfUnique(circle.members, i);
      var r := circle.ProcessPayout(circle.admin, circle.members[i]);
      events := events + [r.value];
    }
  }

  /**
   * A sequential circle of `people` at `contribution`, finalized and with
   * every member paid once in join order.
   */
  method PaidCircle(admin: Address, contribution: int, people: seq<Address>)
    returns (circle: Circle, events: seq<bool>)
    requires NoDuplicates(people) && |people| <= MAX_MEMBERS
    ensures fresh(circle) && circle.Valid() && !circle.isDissolved
    ensures circle.admin == admin && circle.contribution == contribution
    ensures circle.members == people && circle.payoutQueue == people
    ensures circle.cycleNumber == 1 && circle.dissolutionVotes == []
    ensures forall k :: 0 <= k < |people| ==> circle.hasReceivedPayout[k]
    ensures forall k :: 0 <= k < |people| ==> circle.contributionsPaid[k] == contribution
    ensures circle.currentPayoutIndex == |people|
    ensures |events| == |people|
    ensures forall k :: 0 <= k < |events| ==> (events[k] <==> k == |events| - 1)
  {
    circle := new Circle(admin, contribution, false);
    JoinAll(circle, people);
    var f := circle.Finalize(admin, people);
    events := PayAll(circle);
  }

  /** lib.rs test `test_process_payout_and_cycle_completion`; the third payout fires the event. */
  method PayoutAndCycleCompletion(people: seq<Address>) returns (info: (nat, nat, int), events: seq<bool>)
    requires |people| == 3 && NoDuplicates(people)
    ensures info == (1, 3, 300)
    ensures events == [false, false, true]
  {
    var circle;
    circle, events := PaidCircle(Address(0), 100, people);
    assert |events| == 3 && !events[0] && !events[1] && events[2];
    info := circle.CycleInfo();
  }

  /** lib.rs test `test_group_rollover`: the next cycle starts from zero with the same queue. */
  method GroupRollover(people: seq<Address>) returns (info: (nat, nat, int), flags: seq<bool>, queueKept: bool)
    requires |people| == 2 && NoDuplicates(people)
    ensures info == (2, 0, 0)
    ensures flags == [false, false]
    ensures queueKept
  {
    var admin := Address(0);
    var circle, events := PaidCircle(admin, 50, people);
    var r := circle.Rollover(admin);
    assert r == Ok(2);
    info := circle.CycleInfo();
    flags := circle.PayoutStatus();
    assert |flags| == 2 && !flags[0] && !flags[1];
    queueKept := circle.PayoutQueue() == people;
  }

  /** lib.rs test `test_sequential_queue_finalization`: the queue is the join order. */
  method SequentialQueue(people: seq<Address>) returns (queue: seq<Address>)
    requires |people| == 5 && NoDuplicates(people)
    ensures queue == people
  {
    var admin := Address(0);
    var circle := new Circle(admin, 10, false);
    JoinAll(circle, people);
    var f := circle.Finalize(admin, people);
    queue := circle.PayoutQueue();
  }

  /** lib.rs test `test_random_queue_finalization`: any shuffle keeps every member exactly once. */
  method RandomQueue(people: seq<Address>, shuffled: seq<Address>) returns (queue: seq<Address>)
    requires |people| == 5 && NoDuplicates(people)
    requires multiset(shuffled) == multiset(people)
    ensures |queue| == 5
    ensures forall x :: x in people ==> x in queue
    ensures queue == shuffled
  {
    var admin := Address(0);
    var circle := new Circle(admin, 10, true);
    JoinAll(circle, people);
    var f := circle.Finalize(admin, shuffled);
    queue := circle.PayoutQueue();
    assert |queue| == |multiset(queue)| == 5;
    forall x | x in people ensures x in queue {
      assert x in multiset(people);
    }
  }

  /** lib.rs test `join_circle_enforces_max_members`: the fifty-first join is refused. */
  method MaxMembersEnforced(people: seq<Address>, extra: Address) returns (r: Outcome)
    requires |people| == MAX_MEMBERS && NoDuplicates(people) && extra !in people
    ensures r == Fail(MaxMembersReached)
  {
    var circle := new Circle(Address(0), 10, false);
    JoinAll(circle, people);
    r := circle.Join(extra);
  }

  /** With five members, the second vote leaves the circle open and the third dissolves it. */
  method DissolutionQuorum(people: seq<Address>) returns (afterTwo: bool, afterThree: bool)
    requires |people| == 5 && NoDuplicates(people)
    ensures !afterTwo && afterThree
  {
    var circle := new Circle(Address(0), 10, false);
    JoinAll(circle, people);
    var v := circle.VoteDissolve(people[0]);
    v := circle.VoteDissolve(people[1]);
    afterTwo := circle.isDissolved;
    assert circle.dissolutionVotes == [people[0], people[1]];
    v := circle.VoteDissolve(people[2]);
    afterThree := circle.isDissolved;
  }

  /** After a positive pro-rata refund a second withdrawal returns nothing. */
  method WithdrawTwice(people: seq<Address>) returns (first: Result<int>, second: Result<int>)
    requires |people| == 1
    ensures first == Ok(100) && second == Ok(0)
  {
    var circle := new Circle(Address(0), 100, false);
    JoinAll(circle, people);
    var v := circle.VoteDissolve(people[0]);
    first := circle.WithdrawProRata(people[0]);
    second := circle.WithdrawProRata(people[0]);
  }

  /**
   * A member who was paid in the current cycle has nothing to withdraw,
   * until a rollover of the dissolved circle clears the record of that
   * payout and the same contribution becomes refundable again.
   */
  method RefundAfterRolloverOfDissolvedCircle(member: Address)
    returns (beforeRollover: Result<int>, afterRollover: Result<int>)
    ensures beforeRollover == Ok(0)
    ensures afterRollover == Ok(100)
  {
    var admin := Address(0);
    var circle, events := PaidCircle(admin, 100, [member]);
    var v := circle.VoteDissolve(member);
    beforeRollover := circle.WithdrawProRata(member);
    var r := circle.Rollover(admin);
    afterRollover := circle.WithdrawProRata(member);
  }

  /** With the dissolution check in place the same sequence refunds nothing. */
  method RefundWithCheckedRollover(member: Address)
    returns (beforeRollover: Result<int>, rollover: Result<nat>, afterRollover: Result<int>)
    ensures beforeRollover == Ok(0)
    ensures rollover == Err(AlreadyDissolved)
    ensures afterRollover == Ok(0)
  {
    var admin := Address(0);
    var circle, events := PaidCircle(admin, 100, [member]);
    var v := circle.VoteDissolve(member);
    beforeRollover := circle.WithdrawProRata(member);
    rollover := circle.RolloverChecked(admin);
    afterRollover := circle.WithdrawProRata(member);
  }

  /** lib.rs tests `set_protocol_fee_rejects_over_max` and `fee_basis_points_and_treasury_getters`. */
  method ProtocolFeeConfiguration(treasury: Address)
    returns (tooHigh: Outcome, initialBps: nat, initialTreasury: Option<Address>,
             bps: nat, stored: Option<Address>)
    ensures tooHigh == Fail(InvalidFeeConfig)
    ensures initialBps == 0 && initialTreasury == None
    ensures bps == 50 && stored == Some(treasury)
  {
    var protocol := new P.Protocol(Address(99));
    var init := protocol.Initialize(Address(0), 0);
    tooHigh := protocol.SetProtocolFee(10_001, treasury, 0);
    initialBps := protocol.FeeBasisPoints();
    initialTreasury := protocol.treasury;
    var ok := protocol.SetProtocolFee(50, treasury, 0);
    bps := protocol.FeeBasisPoints();
    stored := protocol.treasury;
  }

  /** lib.rs test `emergency_withdraw_after_seven_days`. */
  method EmergencyWithdrawAfterSevenDays(start: U64, user: Address, token: Address)
    returns (deposited: int, withdrawn: Result<seq<Transfer>>, remaining: int)
    requires start + EMERGENCY_WITHDRAWAL_DELAY_SECS + 1 <= U64_MAX
    ensures deposited == 500 && remaining == 0
    ensures withdrawn == Ok([Transfer(token, Address(99), user, 500)])
  {
    var protocol := new P.Protocol(Address(99));
    var init := protocol.Initialize(Address(0), start);
    var t := protocol.Deposit(user, token, 500);
    deposited := protocol.UserBalance(user);
    withdrawn := protocol.EmergencyWithdraw(user, token, start + EMERGENCY_WITHDRAWAL_DELAY_SECS + 1);
    remaining := protocol.UserBalance(user);
  }

  /** An admin action restarts the seven-day delay: six days later the valve is still shut. */
  method AdminActionRestartsDelay(start: U64, action: U64, user: Address, token: Address)
    returns (r: Result<seq<Transfer>>)
    requires start <= action && action + 6 * 24 * 60 * 60 <= U64_MAX
    ensures r == Err(EmergencyWithdrawalNotAvailable)
  {
    var protocol := new P.Protocol(Address(99));
    var init := protocol.Initialize(Address(0), start);
    var t := protocol.Deposit(user, token, 500);
    var a := protocol.AdminAction(action);
    r := protocol.EmergencyWithdraw(user, token, action + 6 * 24 * 60 * 60);
  }

  /** lib.rs test `swap_member_replaces_queue_spot_and_transfers_credit`. */
  method SwapReplacesSpotAndMovesCredit(oldMember: Address, newMember: Address, other: Address)
    returns (roster: seq<Address>, credits: map<Address, int>)
    requires oldMember != newMember && oldMember != other && newMember != other
    ensures roster == [newMember, other]
    ensures newMember in credits && credits[newMember] == 750
    ensures oldMember !in credits
    ensures other in credits && credits[other] == 200
  {
    var protocol := new P.Protocol(Address(99));
    var init := protocol.Initialize(Address(0), 0);
    // The test seeds the roster and the credit map directly in storage.
    protocol.members := [oldMember, other];
    protocol.contribs := map[oldMember := 750, other := 200];
    var r := protocol.SwapMember(oldMember, newMember);
    roster := protocol.members;
    credits := protocol.contribs;
    assert IndexOf([oldMember, other], oldMember) == 0;
    assert roster == [newMember, other];
  }

  /** Swapping a member out and back in restores both the roster and the credit map. */
  method SwapIsReversible(roster: seq<Address>, credits: map<Address, int>,
                          oldMember: Address, newMember: Address)
    returns (first: Outcome, second: Outcome, after: seq<Address>, afterCredits: map<Address, int>)
    requires NoDuplicates(roster) && oldMember in roster && newMember !in roster
    requires oldMember in credits && newMember !in credits
    ensures first == Pass && second == Pass
    ensures after == roster && afterCredits == credits
  {
    var protocol := new P.Protocol(Address(99));
    protocol.members := roster;
    protocol.contribs := credits;
    var i := IndexOf(roster, oldMember);
    first := protocol.SwapMember(oldMember, newMember);
    IndexOfUnique(protocol.members, i);
    assert newMember in protocol.members && oldMember !in protocol.members by {
      forall k | 0 <= k < |protocol.members| ensures protocol.members[k] != oldMember {
        if k != i {
          assert protocol.members[k] == roster[k];
        }
      }
    }
    second := protocol.SwapMember(newMember, oldMember);
    after := protocol.members;
    afterCredits := protocol.contribs;
    assert after == roster by {
      forall k | 0 <= k < |roster| ensures after[k] == roster[k] {
      }
    }
  }

  /** temp_lib.rs test `test_late_penalty_mechanism`: a late 1000 deposit books 10. */
  method LateDepositPenalty(start: nat, user: Address, token: Address)
    returns (reserveBefore: nat, reserveAfter: nat, member: T.Member, transfers: seq<Transfer>)
    ensures reserveBefore == 0 && reserveAfter == 10
    ensures member.hasContributed && member.contributionCount == 1
    ensures transfers == [Transfer(token, user, Address(99), 1000)]
  {
    var susu := new T.SoroSusu(Address(99));
    susu.Init(Address(0));
    var id := susu.CreateCircle(Address(1), 1000, 5, token, 604800, start);
    var j := susu.JoinCircle(user, id);
    reserveBefore := T.GetOr(susu.groupReserve, 0);
    var d := susu.Deposit(user, id, start + 2 * 604800);
    reserveAfter := T.GetOr(susu.groupReserve, 0);
    member := susu.members[user];
    transfers := d.value;
  }

  /** temp_lib.rs test `test_on_time_deposit_no_penalty`: the reserve stays at 0. */
  method OnTimeDepositNoPenalty(start: nat, user: Address, token: Address)
    returns (reserveAfter: nat, deadline: nat)
    ensures reserveAfter == 0
    ensures deadline == start + 604800
  {
    var susu := new T.SoroSusu(Address(99));
    susu.Init(Address(0));
    var id := susu.CreateCircle(Address(1), 1000, 5, token, 604800, start);
    var j := susu.JoinCircle(user, id);
    var d := susu.Deposit(user, id, start);
    reserveAfter := T.GetOr(susu.groupReserve, 0);
    deadline := susu.circles[id].deadlineTimestamp;
  }
}
