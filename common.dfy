/**
 * Shared vocabulary of the SoroSusu contract (src/lib.rs): addresses,
 * the contract's error enumeration, result wrappers, token transfers
 * as abstract outputs, and the roster search helper `find_member_index`.
 */
module SusuCommon {

  /** A Stellar account or contract address; only equality is observable. */
  datatype Address = Address(id: nat)

  /** Ledger timestamps and other `u64` quantities. */
  const U64_MAX: int := 0xFFFF_FFFF_FFFF_FFFF
  type U64 = x: int | 0 <= x <= U64_MAX

  const MAX_BASIS_POINTS: nat := 10_000
  const EMERGENCY_WITHDRAWAL_DELAY_SECS: nat := 7 * 24 * 60 * 60
  const MAX_MEMBERS: nat := 50

  /** The contract's error enumeration, with the discriminants of `#[repr(u32)]`. */
  datatype Error =
    | CircleNotFound
    | Unauthorized
    | AlreadyJoined
    | MaxMembersReached
    | AlreadyVoted
    | NotMember
    | AlreadyDissolved
    | NotDissolved
    | InvalidFeeConfig
    | PenaltyExceedsContribution
    | MemberAlreadyExists
    | EmergencyWithdrawalNotAvailable
    | CircleNotFinalized
    | CycleNotComplete
    | PayoutAlreadyReceived
    | InvalidCircleState
    | MemberNotFound

  /** The numeric code a client sees for each error. */
  function Code(e: Error): (c: nat)
    ensures 1001 <= c <= 1017
    ensures c == 1001 <==> e == CircleNotFound
    ensures c == 1017 <==> e == MemberNotFound
  {
    match e
    case CircleNotFound => 1001
    case Unauthorized => 1002
    case AlreadyJoined => 1003
    case MaxMembersReached => 1004
    case AlreadyVoted => 1005
    case NotMember => 1006
    case AlreadyDissolved => 1007
    case NotDissolved => 1008
    case InvalidFeeConfig => 1009
    case PenaltyExceedsContribution => 1010
    case MemberAlreadyExists => 1011
    case EmergencyWithdrawalNotAvailable => 1012
    case CircleNotFinalized => 1013
    case CycleNotComplete => 1014
    case PayoutAlreadyReceived => 1015
    case InvalidCircleState => 1016
    case MemberNotFound => 1017
  }

  /** Distinct errors are reported with distinct codes. */
  lemma CodeInjective(a: Error, b: Error)
    requires Code(a) == Code(b)
    ensures a == b
  {
    match a
    case CircleNotFound =>
    case Unauthorized =>
    case AlreadyJoined =>
    case MaxMembersReached =>
    case AlreadyVoted =>
    case NotMember =>
    case AlreadyDissolved =>
    case NotDissolved =>
    case InvalidFeeConfig =>
    case PenaltyExceedsContribution =>
    case MemberAlreadyExists =>
    case EmergencyWithdrawalNotAvailable =>
    case CircleNotFinalized =>
    case CycleNotComplete =>
    case PayoutAlreadyReceived =>
    case InvalidCircleState =>
    case MemberNotFound =>
  }

  datatype Option<T> = None | Some(value: T)

  /** The outcome of an entry point that returns `()` or an error. */
  datatype Outcome = Pass | Fail(error: Error)

  /** The outcome of an entry point that returns a value or an error. */
  datatype Result<T> = Ok(value: T) | Err(error: Error)

  /** One call of the token contract's `transfer(from, to, amount)` on `token`. */
  datatype Transfer = Transfer(token: Address, from: Address, to: Address, amount: int)

  predicate NoDuplicates<T(==)>(s: seq<T>) {
    forall i, j :: 0 <= i < j < |s| ==> s[i] != s[j]
  }

  /** The position of the first occurrence of `x` in `s`. */
  function IndexOf<T(==)>(s: seq<T>, x: T): (i: nat)
    requires x in s
    ensures i < |s| && s[i] == x
    ensures x !in s[..i]
  {
    if s[0] == x then 0 else 1 + IndexOf(s[1..], x)
  }

  /** Any position that holds `x` with no earlier occurrence is the one `IndexOf` finds. */
  lemma IndexOfFirst<T>(s: seq<T>, x: T, k: nat)
    requires k < |s| && s[k] == x && x !in s[..k]
    ensures IndexOf(s, x) == k
  {
  }

  /** In a duplicate-free sequence, the only position holding `s[k]` is `k`. */
  lemma IndexOfUnique<T>(s: seq<T>, k: nat)
    requires NoDuplicates(s) && k < |s|
    ensures IndexOf(s, s[k]) == k
  {
    forall j | 0 <= j < k ensures s[..k][j] != s[k] {
      assert s[..k][j] == s[j];
    }
    IndexOfFirst(s, s[k], k);
  }

  /** `find_member_index`: a linear search that stops at the first match. */
  method FindMemberIndex(members: seq<Address>, target: Address) returns (r: Option<nat>)
    ensures target in members ==> r == Some(IndexOf(members, target))
    ensures target !in members ==> r == None
  {
    for index := 0 to |members|
      invariant target !in members[..index]
    {
      if members[index] == target {
        IndexOfFirst(members, target, index);
        return Some(index);
      }
      assert members[..index + 1] == members[..index] + [members[index]];
    }
    assert members[..|members|] == members;
    return None;
  }
}
