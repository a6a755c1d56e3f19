/**
 * The late-penalty deposit variant of the contract (temp_lib.rs): circles
 * are counter-based `CircleInfo` records with a rolling deadline, members
 * are `Member` records keyed by address alone (across all circles), and a
 * deposit made after the deadline books 1% of the contribution to a global
 * group reserve. Each storage key of `DataKey` is a field; a key that may be
 * absent is an `Option`. The variant reports failures by `panic!`, which the
 * model returns as a `Panic` reason with the state unchanged.
 */
module TempLib {
  import opened SusuCommon

  datatype Member = Member(
    address: Address,
    hasContributed: bool,
    contributionCount: nat,
    lastContributionTime: nat)

  datatype CircleInfo = CircleInfo(
    id: nat,
    creator: Address,
    contributionAmount: nat,
    maxMembers: nat,
    memberCount: nat,
    currentRecipientIndex: nat,
    isActive: bool,
    token: Address,
    deadlineTimestamp: nat,
    cycleDuration: nat)

  /** The `panic!`s of this variant: an absent circle (`unwrap` on `None`) and the three messages. */
  datatype Panic = CircleMissing | CircleFull | AlreadyMember | NotAMember

  datatype Outcome<T> = Returned(value: T) | Panicked(reason: Panic)

  /** `unwrap_or(default)` on an optional counter. */
  function GetOr(o: Option<nat>, default: nat): nat
  {
    match o
    case None => default
    case Some(x) => x
  }

  /**
   * The penalty a deposit at `now` books: nothing up to and including the
   * deadline, 1% of the contribution (rounded down) strictly after it.
   */
  function LatePenalty(contributionAmount: nat, deadline: nat, now: nat): (penalty: nat)
    ensures now <= deadline ==> penalty == 0
    ensures now > deadline ==> penalty * 100 <= contributionAmount < penalty * 100 + 100
  {
    if now > deadline then contributionAmount / 100 else 0
  }

  class SoroSusu {
    /** `env.current_contract_address()`, the receiver of every deposit. */
    const contractAddress: Address

    var admin: Option<Address>                // DataKey::Admin
    var circleCount: Option<nat>              // DataKey::CircleCount
    var circles: map<nat, CircleInfo>         // DataKey::Circle(id)
    var members: map<Address, Member>         // DataKey::Member(address)
    var groupReserve: Option<nat>             // DataKey::GroupReserve
    var deposits: set<(nat, Address)>         // DataKey::Deposit(id, address) set to true

    /** Ids come from the counter, records carry their own id, and no circle is over-full. */
    ghost predicate Valid()
      reads this
    {
      forall id :: id in circles ==>
        && circleCount.Some? && 1 <= id <= circleCount.value
        && circles[id].id == id
        && circles[id].memberCount <= circles[id].maxMembers
    }

    constructor (contractAddress: Address)
      ensures Valid() && this.contractAddress == contractAddress
      ensures admin == None && circleCount == None && circles == map[]
      ensures members == map[] && groupReserve == None && deposits == {}
    {
      this.contractAddress := contractAddress;
      admin := None;
      circleCount := None;
      circles := map[];
      members := map[];
      groupReserve := None;
      deposits := {};
    }

    /** `init`: creates the counter only if it is absent, and always (re)writes the admin. */
    method Init(newAdmin: Address)
      requires Valid()
      modifies this`circleCount, this`admin
      ensures Valid()
      ensures circleCount == if old(circleCount).None? then Some(0) else old(circleCount)
      ensures admin == Some(newAdmin)
    {
      if circleCount.None? {
        circleCount := Some(0);
      }
      admin := Some(newAdmin);
    }

    /**
     * `create_circle`: stores an active, empty circle under the next id,
     * with its first deadline one cycle from `now`, and creates the group
     * reserve if it is absent. The creator's signature is not requested.
     */
    method CreateCircle(creator: Address, amount: nat, maxMembers: nat, token: Address,
                        cycleDuration: nat, now: nat) returns (id: nat)
      requires Valid()
      modifies this`circleCount, this`circles, this`groupReserve
      ensures Valid()
      ensures id == GetOr(old(circleCount), 0) + 1 && circleCount == Some(id)
      ensures id !in old(circles)
      ensures circles == old(circles)[id := CircleInfo(id, creator, amount, maxMembers, 0, 0, true,
                                                        token, now + cycleDuration, cycleDuration)]
      ensures groupReserve == if old(groupReserve).None? then Some(0) else old(groupReserve)
    {
      var count := GetOr(circleCount, 0);
      count := count + 1;
      var newCircle := CircleInfo(count, creator, amount, maxMembers, 0, 0, true,
                                  token, now + cycleDuration, cycleDuration);
      circles := circles[count := newCircle];
      circleCount := Some(count);
      if groupReserve.None? {
        groupReserve := Some(0);
      }
      return count;
    }

    /**
     * `join_circle`: admits a user who has no `Member` record yet, in any
     * circle, while the circle has room.
     */
    method JoinCircle(user: Address, circleId: nat) returns (r: Outcome<()>)
      requires Valid()
      modifies this`circles, this`members
      ensures Valid()
      ensures r == if circleId !in old(circles) then Panicked(CircleMissing)
                   else if old(circles)[circleId].memberCount >= old(circles)[circleId].maxMembers
                   then Panicked(CircleFull)
                   else if user in old(members) then Panicked(AlreadyMember)
                   else Returned(())
      ensures r.Panicked? ==> unchanged(this)
      ensures r.Returned? ==>
                var c := old(circles)[circleId];
                && members == old(members)[user := Member(user, false, 0, 0)]
                && circles == old(circles)[circleId := c.(memberCount := c.memberCount + 1)]
    {
      if circleId !in circles {
        return Panicked(CircleMissing);
      }
      var circle := circles[circleId];
      if circle.memberCount >= circle.maxMembers {
        return Panicked(CircleFull);
      }
      if user in members {
        return Panicked(AlreadyMember);
      }
      var newMember := Member(user, false, 0, 0);
      members := members[user := newMember];
      circle := circle.(memberCount := circle.memberCount + 1);
      circles := circles[circleId := circle];
      return Returned(());
    }

    /**
     * `deposit`: pulls the full contribution from the user, books the late
     * penalty into the group reserve when `now` is past the deadline, marks
     * the member as having contributed, and rolls the deadline to one cycle
     * after `now`. The value returned is the token transfer made.
     */
    method Deposit(user: Address, circleId: nat, now: nat) returns (r: Outcome<seq<Transfer>>)
      requires Valid()
      modifies this`groupReserve, this`members, this`circles, this`deposits
      ensures Valid()
      ensures r.Panicked? <==> circleId !in old(circles) || user !in old(members)
      ensures r.Panicked? ==>
                && r.reason == (if circleId !in old(circles) then CircleMissing else NotAMember)
                && unchanged(this)
      ensures r.Returned? ==>
                var c := old(circles)[circleId];
                var m := old(members)[user];
                && r.value == [Transfer(c.token, user, contractAddress, c.contributionAmount)]
                && groupReserve == (if now > c.deadlineTimestamp
                                    then Some(GetOr(old(groupReserve), 0) + c.contributionAmount / 100)
                                    else old(groupReserve))
                && members == old(members)[user := m.(hasContributed := true,
                                                      contributionCount := m.contributionCount + 1,
                                                      lastContributionTime := now)]
                && circles == old(circles)[circleId := c.(deadlineTimestamp := now + c.cycleDuration)]
                && deposits == old(deposits) + {(circleId, user)}
    {
      if circleId !in circles {
        return Panicked(CircleMissing);
      }
      var circle := circles[circleId];
      if user !in members {
        return Panicked(NotAMember);
      }
      var member := members[user];
      var penaltyAmount := 0;
      if now > circle.deadlineTimestamp {
        penaltyAmount := LatePenalty(circle.contributionAmount, circle.deadlineTimestamp, now);
        var reserveBalance := GetOr(groupReserve, 0);
        reserveBalance := reserveBalance + penaltyAmount;
        groupReserve := Some(reserveBalance);
      }
      var transfers := [Transfer(circle.token, user, contractAddress, circle.contributionAmount)];
      member := member.(hasContributed := true,
                        contributionCount := member.contributionCount + 1,
                        lastContributionTime := now);
      members := members[user := member];
      circle := circle.(deadlineTimestamp := now + circle.cycleDuration);
      circles := circles[circleId := circle];
      deposits := deposits + {(circleId, user)};
      return Returned(transfers);
    }
  }
}
