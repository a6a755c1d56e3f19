/**
 * The per-circle ROSCA engine of src/lib.rs: the `Circle` record, the
 * circle counter behind `next_circle_id`, and the entry points that read a
 * circle, change it and write it back (create, join, finalize, payout,
 * rollover, dissolution votes, pro-rata withdrawal).
 *
 * A circle is a `Circle` object; `read_circle`/`write_circle` become the
 * registry's map from ids to objects. Each entry point either returns an
 * error and leaves the circle unchanged (the host rolls back a panicking
 * call) or applies its whole update.
 */
module Circles {
  import opened SusuCommon

  /** Number of `true` flags: the members already paid in this cycle. */
  function CountTrue(s: seq<bool>): (n: nat)
    ensures n <= |s|
    ensures n == |s| <==> forall k :: 0 <= k < |s| ==> s[k]
  {
    if s == [] then 0 else CountTrue(s[..|s| - 1]) + (if s[|s| - 1] then 1 else 0)
  }

  /** Raising one lowered flag adds exactly one to the count. */
  lemma {:induction false} CountTrueRaise(s: seq<bool>, i: nat)
    requires i < |s| && !s[i]
    ensures CountTrue(s[i := true]) == CountTrue(s) + 1
  {
    var last := |s| - 1;
    var t := s[i := true];
    assert CountTrue(t) == CountTrue(t[..last]) + (if t[last] then 1 else 0);
    assert CountTrue(s) == CountTrue(s[..last]) + (if s[last] then 1 else 0);
    if i == last {
      assert t[..last] == s[..last];
    } else {
      assert t[..last] == s[..last][i := true];
      assert t[last] == s[last];
      CountTrueRaise(s[..last], i);
    }
  }

  /** A sequence of lowered flags counts zero. */
  lemma {:induction false} CountTrueNone(s: seq<bool>)
    requires forall k :: 0 <= k < |s| ==> !s[k]
    ensures CountTrue(s) == 0
  {
    if s != [] {
      CountTrueNone(s[..|s| - 1]);
    }
  }

  /** One more payout adds exactly one contribution to the volume. */
  lemma VolumeStep(contribution: int, n: nat)
    ensures contribution * (n + 1) == contribution * n + contribution
  {
  }

  /** `has_received_payout.iter().all(|paid| paid)`: stops at the first `false`. */
  method AllTrue(flags: seq<bool>) returns (all: bool)
    ensures all <==> forall k :: 0 <= k < |flags| ==> flags[k]
  {
    for i := 0 to |flags|
      invariant forall k :: 0 <= k < i ==> flags[k]
    {
      if !flags[i] {
        return false;
      }
    }
    return true;
  }

  class Circle {
    // Written once by `create_circle` and never again.
    const admin: Address
    const contribution: int
    const isRandomQueue: bool

    var members: seq<Address>
    var payoutQueue: seq<Address>
    var hasReceivedPayout: seq<bool>
    var cycleNumber: nat
    var currentPayoutIndex: nat
    var totalVolumeDistributed: int
    var isDissolved: bool
    var dissolutionVotes: seq<Address>
    var contributionsPaid: seq<int>

    /**
     * The circle invariant. `join_circle` is not closed by finalization, so
     * the payout queue is a permutation of the members who had joined when
     * the circle was finalized: a prefix of `members`. A ledger entry holds
     * the contribution credited at join, or 0 after a positive refund.
     */
    ghost predicate Valid()
      reads this
    {
      && |hasReceivedPayout| == |members|
      && |contributionsPaid| == |members|
      && |members| <= MAX_MEMBERS
      && NoDuplicates(members)
      && |payoutQueue| <= |members|
      && multiset(payoutQueue) == multiset(members[..|payoutQueue|])
      && cycleNumber >= 1
      && currentPayoutIndex == CountTrue(hasReceivedPayout)
      && totalVolumeDistributed == contribution * currentPayoutIndex
      && NoDuplicates(dissolutionVotes)
      && (forall v :: v in dissolutionVotes ==> v in members)
      && (forall k :: 0 <= k < |contributionsPaid| ==>
            || contributionsPaid[k] == contribution
            || (contributionsPaid[k] == 0 && contribution > 0))
    }

    /** Every member has received the payout of this cycle. */
    predicate AllPaid()
      reads this
    {
      forall k :: 0 <= k < |hasReceivedPayout| ==> hasReceivedPayout[k]
    }

    /** What `withdraw_pro_rata` would pay the member at position `i` now. */
    ghost function Refundable(i: nat): int
      reads this
      requires Valid() && i < |members|
    {
      contributionsPaid[i] - (if hasReceivedPayout[i] then contribution else 0)
    }

    /** The record `create_circle` writes: an empty, open circle in cycle 1. */
    constructor (admin: Address, contribution: int, isRandomQueue: bool)
      ensures Valid()
      ensures this.admin == admin && this.contribution == contribution
      ensures this.isRandomQueue == isRandomQueue
      ensures members == [] && payoutQueue == [] && hasReceivedPayout == []
      ensures dissolutionVotes == [] && contributionsPaid == []
      ensures cycleNumber == 1 && currentPayoutIndex == 0 && totalVolumeDistributed == 0
      ensures !isDissolved
    {
      this.admin := admin;
      this.contribution := contribution;
      this.isRandomQueue := isRandomQueue;
      members := [];
      payoutQueue := [];
      hasReceivedPayout := [];
      cycleNumber := 1;
      currentPayoutIndex := 0;
      totalVolumeDistributed := 0;
      isDissolved := false;
      dissolutionVotes := [];
      contributionsPaid := [];
    }

    /**
     * `join_circle`: appends the invoker to the roster with an unpaid flag
     * and a ledger entry already credited with one contribution.
     */
    method Join(invoker: Address) returns (r: Outcome)
      requires Valid()
      modifies this`members, this`hasReceivedPayout, this`contributionsPaid
      ensures Valid()
      ensures r == if isDissolved then Fail(AlreadyDissolved)
                   else if invoker in old(members) then Fail(AlreadyJoined)
                   else if |old(members)| >= MAX_MEMBERS then Fail(MaxMembersReached)
                   else Pass
      ensures r.Fail? ==> unchanged(this)
      ensures r.Pass? ==> && members == old(members) + [invoker]
                          && hasReceivedPayout == old(hasReceivedPayout) + [false]
                          && contributionsPaid == old(contributionsPaid) + [contribution]
    {
      if isDissolved {
        return Fail(AlreadyDissolved);
      }
      var found := FindMemberIndex(members, invoker);
      if found.Some? {
        return Fail(AlreadyJoined);
      }
      if |members| >= MAX_MEMBERS {
        return Fail(MaxMembersReached);
      }
      assert (members + [invoker])[..|payoutQueue|] == members[..|payoutQueue|];
      members := members + [invoker];
      hasReceivedPayout := hasReceivedPayout + [false];
      contributionsPaid := contributionsPaid + [contribution];
      return Pass;
    }

    /**
     * `finalize_circle`: fixes the payout order once. `shuffled` is what the
     * host's shuffle returned for a copy of `members`; it is used only for a
     * random-queue circle.
     */
    method Finalize(caller: Address, shuffled: seq<Address>) returns (r: Outcome)
      requires Valid()
      requires multiset(shuffled) == multiset(members)
      modifies this`payoutQueue
      ensures Valid()
      ensures r == if caller != admin then Fail(Unauthorized)
                   else if isDissolved then Fail(AlreadyDissolved)
                   else Pass
      ensures r.Fail? || old(payoutQueue) != [] ==> payoutQueue == old(payoutQueue)
      ensures r.Pass? && old(payoutQueue) == [] ==>
                payoutQueue == if isRandomQueue then shuffled else members
      ensures r.Pass? && old(payoutQueue) == [] ==> multiset(payoutQueue) == multiset(members)
    {
      if caller != admin {
        return Fail(Unauthorized);
      }
      if isDissolved {
        return Fail(AlreadyDissolved);
      }
      if payoutQueue != [] {
        return Pass;
      }
      assert members[..|members|] == members;
      if isRandomQueue {
        assert |shuffled| == |multiset(shuffled)| == |members|;
        payoutQueue := shuffled;
      } else {
        payoutQueue := members;
      }
      return Pass;
    }

    /** The writes of a successful payout: one flag raised, one more payout, one more contribution paid out. */
    method RecordPayout(index: nat)
      requires Valid() && index < |members| && !hasReceivedPayout[index]
      modifies this`hasReceivedPayout, this`currentPayoutIndex, this`totalVolumeDistributed
      ensures Valid()
      ensures hasReceivedPayout == old(hasReceivedPayout)[index := true]
      ensures currentPayoutIndex == old(currentPayoutIndex) + 1
      ensures totalVolumeDistributed == old(totalVolumeDistributed) + contribution
    {
      CountTrueRaise(hasReceivedPayout, index);
      hasReceivedPayout := hasReceivedPayout[index := true];
      currentPayoutIndex := currentPayoutIndex + 1;
      totalVolumeDistributed := totalVolumeDistributed + contribution;
      VolumeStep(contribution, currentPayoutIndex - 1);
    }

    /**
     * `process_payout`: marks `recipient` as paid, in whatever order the
     * admin chooses and whether or not the circle is finalized. The value
     * returned is whether the `CYCLE_COMP` event fires.
     */
    method ProcessPayout(caller: Address, recipient: Address) returns (r: Result<bool>)
      requires Valid()
      modifies this`hasReceivedPayout, this`currentPayoutIndex, this`totalVolumeDistributed
      ensures Valid()
      ensures r == if caller != admin then Err(Unauthorized)
                   else if isDissolved then Err(AlreadyDissolved)
                   else if recipient !in members then Err(NotMember)
                   else if old(hasReceivedPayout)[IndexOf(members, recipient)] then Err(PayoutAlreadyReceived)
                   else Ok(AllPaid())
      ensures r.Err? ==> unchanged(this)
      ensures r.Ok? ==>
                && hasReceivedPayout == old(hasReceivedPayout)[IndexOf(members, recipient) := true]
                && currentPayoutIndex == old(currentPayoutIndex) + 1
                && totalVolumeDistributed == old(totalVolumeDistributed) + contribution
      ensures r.Ok? ==> (r.value <==> currentPayoutIndex == |members|)
    {
      if caller != admin {
        return Err(Unauthorized);
      }
      if isDissolved {
        return Err(AlreadyDissolved);
      }
      var found := FindMemberIndex(members, recipient);
      if found.None? {
        return Err(NotMember);
      }
      var index := found.value;
      if hasReceivedPayout[index] {
        return Err(PayoutAlreadyReceived);
      }
      RecordPayout(index);
      var allPaid := AllTrue(hasReceivedPayout);
      assert allPaid <==> currentPayoutIndex == |members|;
      return Ok(allPaid);
    }

    /**
     * `rollover_group`: once every flag is raised, starts the next cycle with
     * the same roster, queue and ledger. The value returned is the new cycle
     * number carried by the `GROUP_ROLL` event. Dissolution is not checked.
     */
    method Rollover(caller: Address) returns (r: Result<nat>)
      requires Valid()
      modifies this`cycleNumber, this`currentPayoutIndex, this`totalVolumeDistributed
      modifies this`hasReceivedPayout
      ensures Valid()
      ensures r == if caller != admin then Err(Unauthorized)
                   else if exists k :: 0 <= k < |old(hasReceivedPayout)| && !old(hasReceivedPayout)[k]
                   then Err(CycleNotComplete)
                   else Ok(old(cycleNumber) + 1)
      ensures r.Err? ==> unchanged(this)
      ensures r.Ok? ==> && cycleNumber == old(cycleNumber) + 1
                        && currentPayoutIndex == 0
                        && totalVolumeDistributed == 0
                        && |hasReceivedPayout| == |old(hasReceivedPayout)|
                        && forall k :: 0 <= k < |hasReceivedPayout| ==> !hasReceivedPayout[k]
    {
      if caller != admin {
        return Err(Unauthorized);
      }
      var allPaid := AllTrue(hasReceivedPayout);
      if !allPaid {
        return Err(CycleNotComplete);
      }
      cycleNumber := cycleNumber + 1;
      currentPayoutIndex := 0;
      totalVolumeDistributed := 0;
      var len := |hasReceivedPayout|;
      var reset: seq<bool> := [];
      for k := 0 to len
        invariant |reset| == k
        invariant forall j :: 0 <= j < k ==> !reset[j]
      {
        reset := reset + [false];
      }
      CountTrueNone(reset);
      hasReceivedPayout := reset;
      return Ok(cycleNumber);
    }

    /**
     * `rollover_group` with the dissolution check that a terminal
     * dissolved state calls for: the payout record of a dissolved circle,
     * and with it what each member may withdraw, stays as it was.
     */
    method RolloverChecked(caller: Address) returns (r: Result<nat>)
      requires Valid()
      modifies this`cycleNumber, this`currentPayoutIndex, this`totalVolumeDistributed
      modifies this`hasReceivedPayout
      ensures Valid()
      ensures old(isDissolved) ==> r == Err(AlreadyDissolved) && unchanged(this)
      ensures !old(isDissolved) ==>
                r == if caller != admin then Err(Unauthorized)
                     else if exists k :: 0 <= k < |old(hasReceivedPayout)| && !old(hasReceivedPayout)[k]
                     then Err(CycleNotComplete)
                     else Ok(old(cycleNumber) + 1)
      ensures forall i :: 0 <= i < |members| && old(isDissolved) ==> Refundable(i) == old(Refundable(i))
      ensures r.Err? ==> unchanged(this)
      ensures r.Ok? ==> && cycleNumber == old(cycleNumber) + 1
                        && currentPayoutIndex == 0
                        && totalVolumeDistributed == 0
                        && |hasReceivedPayout| == |old(hasReceivedPayout)|
                        && forall k :: 0 <= k < |hasReceivedPayout| ==> !hasReceivedPayout[k]
    {
      if isDissolved {
        return Err(AlreadyDissolved);
      }
      r := Rollover(caller);
    }

    /**
     * `propose_dissolution`: records the invoker's vote at most once and
     * never dissolves the circle, whatever the tally.
     */
    method ProposeDissolution(invoker: Address) returns (r: Outcome)
      requires Valid()
      modifies this`dissolutionVotes
      ensures Valid()
      ensures r == if isDissolved then Fail(AlreadyDissolved)
                   else if invoker !in members then Fail(NotMember)
                   else Pass
      ensures dissolutionVotes == if r.Pass? && invoker !in old(dissolutionVotes)
                                  then old(dissolutionVotes) + [invoker]
                                  else old(dissolutionVotes)
    {
      if isDissolved {
        return Fail(AlreadyDissolved);
      }
      if invoker !in members {
        return Fail(NotMember);
      }
      if invoker !in dissolutionVotes {
        dissolutionVotes := dissolutionVotes + [invoker];
      }
      return Pass;
    }

    /**
     * `vote_dissolve`: adds a first vote and dissolves the circle once the
     * votes are a strict majority of the current members.
     */
    method VoteDissolve(invoker: Address) returns (r: Outcome)
      requires Valid()
      modifies this`dissolutionVotes, this`isDissolved
      ensures Valid()
      ensures old(isDissolved) ==> isDissolved
      ensures r == if old(isDissolved) then Fail(AlreadyDissolved)
                   else if invoker !in members then Fail(NotMember)
                   else if invoker in old(dissolutionVotes) then Fail(AlreadyVoted)
                   else Pass
      ensures r.Fail? ==> unchanged(this)
      ensures r.Pass? ==> && dissolutionVotes == old(dissolutionVotes) + [invoker]
                          && (isDissolved <==> |dissolutionVotes| * 2 > |members|)
    {
      if isDissolved {
        return Fail(AlreadyDissolved);
      }
      if invoker !in members {
        return Fail(NotMember);
      }
      if invoker in dissolutionVotes {
        return Fail(AlreadyVoted);
      }
      dissolutionVotes := dissolutionVotes + [invoker];
      if |dissolutionVotes| * 2 > |members| {
        isDissolved := true;
      }
      return Pass;
    }

    /**
     * `withdraw_pro_rata`: returns the member's ledger entry minus one
     * contribution if they were paid this cycle, possibly zero or negative,
     * and zeroes the entry only when the amount is positive. No tokens move.
     */
    method WithdrawProRata(invoker: Address) returns (r: Result<int>)
      requires Valid()
      modifies this`contributionsPaid
      ensures Valid()
      ensures r == if !isDissolved then Err(NotDissolved)
                   else if invoker !in members then Err(NotMember)
                   else Ok(old(Refundable(IndexOf(members, invoker))))
      ensures r.Err? ==> unchanged(this)
      ensures r.Ok? ==> contributionsPaid ==
                          if r.value > 0 then old(contributionsPaid)[IndexOf(members, invoker) := 0]
                          else old(contributionsPaid)
      // A positive refund is one unpaid contribution, and a repeat call yields nothing.
      ensures r.Ok? && r.value > 0 ==>
                r.value == contribution && !hasReceivedPayout[IndexOf(members, invoker)]
      ensures r.Ok? ==> Refundable(IndexOf(members, invoker)) <= 0
    {
      if !isDissolved {
        return Err(NotDissolved);
      }
      var found := FindMemberIndex(members, invoker);
      if found.None? {
        return Err(NotMember);
      }
      var i := found.value;
      var contributed := contributionsPaid[i];
      var received := if hasReceivedPayout[i] then contribution else 0;
      var refundable := contributed - received;
      if refundable > 0 {
        contributionsPaid := contributionsPaid[i := 0];
      }
      return Ok(refundable);
    }

    /** `get_cycle_info`: (cycle number, payouts made, volume paid out). */
    function CycleInfo(): (info: (nat, nat, int))
      reads this
      requires Valid()
      ensures info.0 >= 1
      ensures info.1 == CountTrue(hasReceivedPayout) <= |members|
      ensures info.2 == contribution * info.1
    {
      (cycleNumber, currentPayoutIndex, totalVolumeDistributed)
    }

    /** `get_payout_status`: one flag per member, in join order. */
    function PayoutStatus(): (flags: seq<bool>)
      reads this
      requires Valid()
      ensures |flags| == |members|
      ensures CountTrue(flags) == currentPayoutIndex
    {
      hasReceivedPayout
    }

    /** `get_payout_queue`: empty, or the finalized order of the members who had joined by then. */
    function PayoutQueue(): (queue: seq<Address>)
      reads this
      requires Valid()
      ensures |queue| <= |members|
      ensures multiset(queue) == multiset(members[..|queue|])
    {
      payoutQueue
    }
  }

  /** The circle counter (`DataKey::CircleCount`) and the stored circles (`DataKey::Circle(id)`). */
  class CircleRegistry {
    var circleCount: nat
    var circles: map<nat, Circle>

    ghost predicate Valid()
      reads this
    {
      forall id :: id in circles ==> 1 <= id <= circleCount
    }

    constructor ()
      ensures Valid() && circleCount == 0 && circles == map[]
    {
      circleCount := 0;
      circles := map[];
    }

    /** `create_circle` with `next_circle_id`: the new id is one past the previous count. */
    method CreateCircle(admin: Address, contribution: int, isRandomQueue: bool)
      returns (id: nat, circle: Circle)
      requires Valid()
      modifies this
      ensures Valid()
      ensures id == old(circleCount) + 1 && circleCount == id
      ensures id !in old(circles) && circles == old(circles)[id := circle]
      ensures fresh(circle) && circle.Valid()
      ensures circle.admin == admin && circle.contribution == contribution
      ensures circle.isRandomQueue == isRandomQueue
      ensures circle.members == [] && circle.payoutQueue == [] && circle.hasReceivedPayout == []
      ensures circle.dissolutionVotes == [] && circle.contributionsPaid == []
      ensures circle.cycleNumber == 1 && circle.currentPayoutIndex == 0
      ensures circle.totalVolumeDistributed == 0 && !circle.isDissolved
    {
      id := circleCount + 1;
      circleCount := id;
      circle := new Circle(admin, contribution, isRandomQueue);
      circles := circles[id := circle];
    }

    /** `read_circle` (and `get_circle`): a stored circle, or `CircleNotFound`. */
    function ReadCircle(id: nat): (r: Result<Circle>)
      reads this
      requires Valid()
      ensures r.Ok? <==> id in circles
      ensures r.Ok? ==> 1 <= id <= circleCount && r.value == circles[id]
      ensures r.Err? ==> r.error == CircleNotFound
    {
      if id in circles then Ok(circles[id]) else Err(CircleNotFound)
    }
  }
}
