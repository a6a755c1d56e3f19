/**
 * The protocol-level state of src/lib.rs, kept under fixed storage keys
 * rather than per circle: the admin, the payout fee and its treasury, a
 * global roster (`MEMBERS_KEY`) with its credit map (`CONTRIBS_KEY`), and
 * the custody ledger (`USER_BAL_KEY`) guarded by the inactivity timer
 * (`LAST_ACTIVE_KEY`). Token movements are returned as `Transfer` records.
 */
module Protocol {
  import opened SusuCommon

  /** `u64::saturating_add`. */
  function SaturatingAdd(a: U64, b: U64): U64 {
    if a + b <= U64_MAX then a + b else U64_MAX
  }

  /**
   * Whether `emergency_withdraw` is open at `now`. The unlock time saturates
   * at `u64::MAX`, which no `u64` clock exceeds, so the saturation never
   * opens the valve early: it opens exactly when seven days have passed.
   */
  function EmergencyUnlocked(lastActive: U64, now: U64): (open: bool)
    ensures open <==> now > lastActive + EMERGENCY_WITHDRAWAL_DELAY_SECS
  {
    now > SaturatingAdd(lastActive, EMERGENCY_WITHDRAWAL_DELAY_SECS)
  }

  /** Rust's `/` on `i128`, which rounds toward zero. */
  function DivTrunc(a: int, d: nat): int
    requires d > 0
  {
    if a >= 0 then a / d else -((-a) / d)
  }

  /**
   * The fee `compute_and_transfer_payout` keeps out of `gross` at `feeBps`
   * basis points: exactly 0 for a zero rate, otherwise `gross * feeBps /
   * 10000` rounded toward zero, which for a rate of at most 100% lies
   * between 0 and `gross`.
   */
  function ProtocolFee(gross: int, feeBps: nat): (fee: int)
    ensures feeBps == 0 ==> fee == 0
    ensures gross >= 0 ==>
              fee * MAX_BASIS_POINTS <= gross * feeBps < fee * MAX_BASIS_POINTS + MAX_BASIS_POINTS
    ensures gross >= 0 && feeBps <= MAX_BASIS_POINTS ==> 0 <= fee <= gross
    ensures gross < 0 ==>
              (-fee) * MAX_BASIS_POINTS <= (-gross) * feeBps < (-fee) * MAX_BASIS_POINTS + MAX_BASIS_POINTS
    ensures gross < 0 && feeBps <= MAX_BASIS_POINTS ==> gross <= fee <= 0
  {
    if feeBps == 0 then 0
    else
      var fee := DivTrunc(gross * feeBps, MAX_BASIS_POINTS);
      FeeBounds(gross, feeBps);
      fee
  }

  lemma FeeBounds(gross: int, feeBps: nat)
    requires feeBps > 0
    ensures var fee := DivTrunc(gross * feeBps, MAX_BASIS_POINTS);
            && (gross >= 0 ==>
                  fee * MAX_BASIS_POINTS <= gross * feeBps < fee * MAX_BASIS_POINTS + MAX_BASIS_POINTS)
            && (gross >= 0 && feeBps <= MAX_BASIS_POINTS ==> 0 <= fee <= gross)
            && (gross < 0 ==>
                  (-fee) * MAX_BASIS_POINTS <= (-gross) * feeBps < (-fee) * MAX_BASIS_POINTS + MAX_BASIS_POINTS)
            && (gross < 0 && feeBps <= MAX_BASIS_POINTS ==> gross <= fee <= 0)
  {
    var m := MAX_BASIS_POINTS;
    if gross >= 0 {
      var p := gross * feeBps;
      assert p >= 0;
      var fee := p / m;
      assert fee * m <= p < fee * m + m;
      if feeBps <= m {
        assert p <= gross * m by { MulMonotone(gross, feeBps, m); }
        assert fee * m <= gross * m;
        assert fee <= gross;
      }
    } else {
      var p := (-gross) * feeBps;
      assert gross * feeBps == -p;
      var q := p / m;
      assert q * m <= p < q * m + m;
      if feeBps <= m {
        assert p <= (-gross) * m by { MulMonotone(-gross, feeBps, m); }
        assert q * m <= (-gross) * m;
        assert q <= -gross;
      }
    }
  }

  lemma MulMonotone(a: int, b: int, c: int)
    requires a >= 0 && b <= c
    ensures a * b <= a * c
  {
    assert a * c - a * b == a * (c - b);
  }

  /** Removing the element at `i` from a duplicate-free roster removes that member and only it. */
  lemma RemoveAtKeepsDistinct(s: seq<Address>, i: nat)
    requires NoDuplicates(s) && i < |s|
    ensures var rest := s[..i] + s[i + 1..];
            && s[i] !in rest
            && NoDuplicates(rest)
            && multiset(rest) == multiset(s) - multiset{s[i]}
  {
    var rest := s[..i] + s[i + 1..];
    assert s == s[..i] + [s[i]] + s[i + 1..];
    forall k | 0 <= k < |rest| ensures rest[k] != s[i] {
      if k < i {
        assert rest[k] == s[k];
      } else {
        assert rest[k] == s[k + 1];
      }
    }
    forall a, b | 0 <= a < b < |rest| ensures rest[a] != rest[b] {
      var a' := if a < i then a else a + 1;
      var b' := if b < i then b else b + 1;
      assert rest[a] == s[a'] && rest[b] == s[b'];
    }
  }

  /** `Map::get(..).unwrap_or(0)` on a balance or credit map. */
  function GetOrZero(m: map<Address, int>, a: Address): int
  {
    if a in m then m[a] else 0
  }

  /** The `Kicked` event payload and the transfers `kick_member` makes. */
  datatype Kicked = Kicked(member: Address, refund: int, penalty: int, transfers: seq<Transfer>)

  class Protocol {
    /** `env.current_contract_address()`, the custodian of every deposit. */
    const contractAddress: Address

    var admin: Option<Address>
    var feeBasisPoints: nat
    var treasury: Option<Address>
    var members: seq<Address>
    var contribs: map<Address, int>
    var balances: map<Address, int>
    var lastActive: U64

    /**
     * Absent keys read as their defaults (`unwrap_or`), so a fresh
     * instance has no admin, a zero fee, no treasury and empty collections.
     */
    ghost predicate Valid()
      reads this
    {
      feeBasisPoints <= MAX_BASIS_POINTS && NoDuplicates(members)
    }

    constructor (contractAddress: Address)
      ensures Valid() && this.contractAddress == contractAddress
      ensures admin == None && feeBasisPoints == 0 && treasury == None
      ensures members == [] && contribs == map[] && balances == map[] && lastActive == 0
    {
      this.contractAddress := contractAddress;
      admin := None;
      feeBasisPoints := 0;
      treasury := None;
      members := [];
      contribs := map[];
      balances := map[];
      lastActive := 0;
    }

    /** `require_admin`: fails when no admin was ever stored (the signature check is the host's). */
    method RequireAdmin() returns (r: Outcome)
      ensures r.Pass? <==> admin.Some?
      ensures r.Fail? ==> r.error == Unauthorized
    {
      if admin.None? {
        return Fail(Unauthorized);
      }
      return Pass;
    }

    /**
     * `initialize`: one-time setup. It resets the fee, the roster, the
     * credit map and the custody ledger, and starts the inactivity timer.
     */
    method Initialize(newAdmin: Address, now: U64) returns (r: Outcome)
      requires Valid()
      modifies this`admin, this`feeBasisPoints, this`members, this`contribs
      modifies this`balances, this`lastActive
      ensures Valid()
      ensures r == if old(admin).Some? then Fail(Unauthorized) else Pass
      ensures r.Fail? ==> unchanged(this)
      ensures r.Pass? ==> && admin == Some(newAdmin) && feeBasisPoints == 0
                          && members == [] && contribs == map[] && balances == map[]
                          && lastActive == now
    {
      if admin.Some? {
        return Fail(Unauthorized);
      }
      admin := Some(newAdmin);
      feeBasisPoints := 0;
      members := [];
      contribs := map[];
      balances := map[];
      lastActive := now;
      return Pass;
    }

    /** `set_protocol_fee`: admin only, at most 10000 basis points (100%). */
    method SetProtocolFee(feeBps: nat, newTreasury: Address, now: U64) returns (r: Outcome)
      requires Valid()
      modifies this`feeBasisPoints, this`treasury, this`lastActive
      ensures Valid()
      ensures r == if admin.None? then Fail(Unauthorized)
                   else if feeBps > MAX_BASIS_POINTS then Fail(InvalidFeeConfig)
                   else Pass
      ensures r.Fail? ==> unchanged(this)
      ensures r.Pass? ==> feeBasisPoints == feeBps && treasury == Some(newTreasury) && lastActive == now
    {
      r := RequireAdmin();
      if r.Fail? {
        return;
      }
      if feeBps > MAX_BASIS_POINTS {
        return Fail(InvalidFeeConfig);
      }
      feeBasisPoints := feeBps;
      treasury := Some(newTreasury);
      lastActive := now;
    }

    /** `deposit`: pulls `amount` into custody and credits the user's balance. */
    method Deposit(user: Address, token: Address, amount: int) returns (transfers: seq<Transfer>)
      requires Valid()
      modifies this`balances
      ensures Valid()
      ensures transfers == [Transfer(token, user, contractAddress, amount)]
      ensures balances == old(balances)[user := GetOrZero(old(balances), user) + amount]
      ensures GetOrZero(balances, user) == GetOrZero(old(balances), user) + amount
    {
      transfers := [Transfer(token, user, contractAddress, amount)];
      var current := GetOrZero(balances, user);
      balances := balances[user := current + amount];
    }

    /**
     * `emergency_withdraw`: once the admin has been inactive for more than
     * seven days, returns the user's whole balance (if positive) and drops
     * the entry.
     */
    method EmergencyWithdraw(user: Address, token: Address, now: U64) returns (r: Result<seq<Transfer>>)
      requires Valid()
      modifies this`balances
      ensures Valid()
      ensures r.Err? <==> now <= lastActive + EMERGENCY_WITHDRAWAL_DELAY_SECS
      ensures r.Err? ==> r.error == EmergencyWithdrawalNotAvailable && unchanged(this)
      ensures r.Ok? ==> && balances == old(balances) - {user}
                        && var amount := GetOrZero(old(balances), user);
                           r.value == if amount > 0 then [Transfer(token, contractAddress, user, amount)] else []
    {
      if !EmergencyUnlocked(lastActive, now) {
        return Err(EmergencyWithdrawalNotAvailable);
      }
      var amount := GetOrZero(balances, user);
      var transfers := [];
      if amount > 0 {
        transfers := [Transfer(token, contractAddress, user, amount)];
      }
      balances := balances - {user};
      return Ok(transfers);
    }

    /** `admin_action`: any admin call restarts the inactivity timer. */
    method AdminAction(now: U64) returns (r: Outcome)
      requires Valid()
      modifies this`lastActive
      ensures Valid()
      ensures r == if admin.None? then Fail(Unauthorized) else Pass
      ensures lastActive == if r.Pass? then now else old(lastActive)
    {
      r := RequireAdmin();
      if r.Pass? {
        lastActive := now;
      }
    }

    /**
     * `kick_member`: removes `member` from the roster and the credit map,
     * refunds the credit minus the penalty, and sends a positive penalty
     * to the treasury if one is configured.
     */
    method KickMember(token: Address, member: Address, penalty: int, now: U64) returns (r: Result<Kicked>)
      requires Valid()
      modifies this`members, this`contribs, this`lastActive
      ensures Valid()
      ensures r.Err? <==> || admin.None?
                          || member !in old(members)
                          || GetOrZero(old(contribs), member) < penalty
      ensures r.Err? ==> r.error == if admin.None? then Unauthorized
                                    else if member !in old(members) then MemberNotFound
                                    else PenaltyExceedsContribution
      ensures r.Err? ==> unchanged(this)
      ensures r.Ok? ==>
                var i := IndexOf(old(members), member);
                var credit := GetOrZero(old(contribs), member);
                && members == old(members)[..i] + old(members)[i + 1..]
                && member !in members
                && multiset(members) == multiset(old(members)) - multiset{member}
                && contribs == old(contribs) - {member}
                && lastActive == now
                && r.value.member == member && r.value.penalty == penalty
                && r.value.refund == credit - penalty >= 0
                && r.value.transfers ==
                     (if r.value.refund > 0 then [Transfer(token, contractAddress, member, r.value.refund)] else [])
                     + (if penalty > 0 && treasury.Some?
                        then [Transfer(token, contractAddress, treasury.value, penalty)] else [])
    {
      var auth := RequireAdmin();
      if auth.Fail? {
        return Err(auth.error);
      }
      var found := FindMemberIndex(members, member);
      if found.None? {
        return Err(MemberNotFound);
      }
      var index := found.value;
      var totalContributed := GetOrZero(contribs, member);
      if totalContributed < penalty {
        return Err(PenaltyExceedsContribution);
      }
      RemoveAtKeepsDistinct(members, index);
      members := members[..index] + members[index + 1..];
      contribs := contribs - {member};
      var refund := totalContributed - penalty;
      var transfers := [];
      if refund > 0 {
        transfers := transfers + [Transfer(token, contractAddress, member, refund)];
      }
      if penalty > 0 && treasury.Some? {
        transfers := transfers + [Transfer(token, contractAddress, treasury.value, penalty)];
      }
      lastActive := now;
      return Ok(Kicked(member, refund, penalty, transfers));
    }

    /**
     * The effect of a member swap: `newMember` holds `oldMember`'s index,
     * every other position is as before, and the old credit has moved to
     * `newMember`.
     */
    twostate predicate SwappedIn(oldMember: Address, newMember: Address)
      reads this
      requires oldMember in old(members)
    {
      var i := IndexOf(old(members), oldMember);
      && |members| == |old(members)|
      && members[i] == newMember
      && (forall k :: 0 <= k < |members| && k != i ==> members[k] == old(members)[k])
      && contribs == (old(contribs) - {oldMember})[newMember := GetOrZero(old(contribs), oldMember)]
    }

    /**
     * `apply_member_swap`: `newMember` takes `oldMember`'s place in the
     * roster, every other position unchanged, and inherits its credit.
     */
    method ApplyMemberSwap(oldMember: Address, newMember: Address) returns (r: Outcome)
      requires Valid()
      modifies this`members, this`contribs
      ensures Valid()
      ensures r == if oldMember !in old(members) then Fail(MemberNotFound)
                   else if newMember in old(members) && oldMember != newMember then Fail(MemberAlreadyExists)
                   else Pass
      ensures r.Fail? ==> unchanged(this)
      ensures r.Pass? ==> oldMember in old(members) && SwappedIn(oldMember, newMember)
    {
      var found := FindMemberIndex(members, oldMember);
      if found.None? {
        return Fail(MemberNotFound);
      }
      var oldIndex := found.value;
      var clash := FindMemberIndex(members, newMember);
      if clash.Some? && oldMember != newMember {
        return Fail(MemberAlreadyExists);
      }
      var updated: seq<Address> := [];
      for index := 0 to |members|
        invariant |updated| == index
        invariant forall k :: 0 <= k < index ==>
                    updated[k] == if k == oldIndex then newMember else members[k]
      {
        if index == oldIndex {
          updated := updated + [newMember];
        } else {
          updated := updated + [members[index]];
        }
      }
      assert NoDuplicates(updated) by {
        forall a, b | 0 <= a < b < |updated| ensures updated[a] != updated[b] {
          if a == oldIndex {
            assert newMember == oldMember || newMember !in members;
            assert updated[b] == members[b];
          } else if b == oldIndex {
            assert newMember == oldMember || newMember !in members;
            assert updated[a] == members[a];
          }
        }
      }
      var totalContributed := GetOrZero(contribs, oldMember);
      contribs := (contribs - {oldMember})[newMember := totalContributed];
      members := updated;
      return Pass;
    }

    /** `swap_member`: the member-signed swap; both signatures are the host's to check. */
    method SwapMember(oldMember: Address, newMember: Address) returns (r: Outcome)
      requires Valid()
      modifies this`members, this`contribs
      ensures Valid()
      ensures r == if oldMember !in old(members) then Fail(MemberNotFound)
                   else if newMember in old(members) && oldMember != newMember then Fail(MemberAlreadyExists)
                   else Pass
      ensures r.Fail? ==> unchanged(this)
      ensures r.Pass? ==> oldMember in old(members) && SwappedIn(oldMember, newMember)
    {
      r := ApplyMemberSwap(oldMember, newMember);
    }

    /** `swap_member_by_admin`: the same swap under the admin, which restarts the timer on success. */
    method SwapMemberByAdmin(oldMember: Address, newMember: Address, now: U64) returns (r: Outcome)
      requires Valid()
      modifies this`members, this`contribs, this`lastActive
      ensures Valid()
      ensures r == if admin.None? then Fail(Unauthorized)
                   else if oldMember !in old(members) then Fail(MemberNotFound)
                   else if newMember in old(members) && oldMember != newMember then Fail(MemberAlreadyExists)
                   else Pass
      ensures r.Fail? ==> unchanged(this)
      ensures r.Pass? ==> oldMember in old(members) && SwappedIn(oldMember, newMember) && lastActive == now
    {
      r := RequireAdmin();
      if r.Fail? {
        return;
      }
      r := ApplyMemberSwap(oldMember, newMember);
      if r.Pass? {
        lastActive := now;
      }
    }

    /**
     * `compute_and_transfer_payout`: sends the net amount to the recipient
     * and a positive fee to the treasury. A positive fee with no treasury
     * aborts the call, so neither transfer happens.
     */
    method ComputeAndTransferPayout(token: Address, from: Address, recipient: Address, gross: int)
      returns (r: Result<seq<Transfer>>)
      requires Valid()
      ensures var fee := ProtocolFee(gross, feeBasisPoints);
              r == if fee > 0 && treasury.None? then Err(InvalidFeeConfig)
                   else Ok([Transfer(token, from, recipient, gross - fee)]
                           + if fee > 0 then [Transfer(token, from, treasury.value, fee)] else [])
      // For a non-negative payout the transfers add up to exactly the gross amount.
      ensures r.Ok? && gross >= 0 ==>
                && 0 <= r.value[0].amount <= gross
                && gross == r.value[0].amount + (if |r.value| == 2 then r.value[1].amount else 0)
    {
      var fee := ProtocolFee(gross, feeBasisPoints);
      var netPayout := gross - fee;
      var transfers := [Transfer(token, from, recipient, netPayout)];
      if fee > 0 {
        if treasury.None? {
          return Err(InvalidFeeConfig);
        }
        transfers := transfers + [Transfer(token, from, treasury.value, fee)];
        assert transfers == [Transfer(token, from, recipient, gross - fee)] + [Transfer(token, from, treasury.value, fee)];
      } else {
        assert transfers == [Transfer(token, from, recipient, gross - fee)] + [];
      }
      return Ok(transfers);
    }

    /** `get_user_balance`. */
    function UserBalance(user: Address): int
      reads this
    {
      GetOrZero(balances, user)
    }

    /** `fee_basis_points`: never above 100%. */
    function FeeBasisPoints(): (bps: nat)
      reads this
      requires Valid()
      ensures bps <= MAX_BASIS_POINTS
    {
      feeBasisPoints
    }
  }
}
