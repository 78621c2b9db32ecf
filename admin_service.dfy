/** src/services/admin.service.ts: platform statistics, counted and summed over the four tables. */
module AdminService {
  import opened Wrappers
  import opened Domain
  import Tables
  import UserRepo
  import PropertyRepo
  import RequestRepo
  import CommissionRepo
  import CommissionService

  datatype AdminStats = AdminStats(
    totalUsers: nat, totalProperties: nat, totalRequests: nat, totalCommissions: nat,
    pendingUsers: nat, pendingProperties: nat, pendingRequests: nat,
    totalCommissionAmount: int, totalSmartRentFee: int)

  function SumAmounts(s: seq<Commission>): int {
    if s == [] then 0 else SumAmounts(s[..|s| - 1]) + s[|s| - 1].amount
  }

  function SumFees(s: seq<Commission>): int {
    if s == [] then 0 else SumFees(s[..|s| - 1]) + s[|s| - 1].smartRentFee
  }

  /** JavaScript's `x || 0` on an aggregate that is null over an empty table. */
  function OrZero(x: Option<int>): (r: int)
    ensures x.None? ==> r == 0
    ensures x.Some? ==> r == x.value
  {
    if x.Some? && x.value != 0 then x.value else 0
  }

  predicate PendingRequest(x: Request) { x.status == PENDING }

  /**
   * With non-negative amounts and every fee computed from its amount, the
   * fees add up to at least zero and at most the amounts.
   */
  lemma {:induction false} FeesWithinAmounts(s: seq<Commission>)
    requires forall i :: 0 <= i < |s| ==> s[i].amount >= 0 && s[i].smartRentFee == CommissionService.Fee(s[i].amount)
    ensures 0 <= SumFees(s) <= SumAmounts(s)
  {
    if s != [] {
      FeesWithinAmounts(s[..|s| - 1]);
      CommissionService.FeeBounds(s[|s| - 1].amount);
    }
  }

  class AdminService {
    const users: UserRepo.UserRepository
    const properties: PropertyRepo.PropertyRepository
    const requests: RequestRepo.RequestRepository
    const commissions: CommissionRepo.CommissionRepository

    ghost predicate Valid()
      reads this, users, properties, requests, commissions
    {
      users.Valid() && properties.Valid() && requests.Valid() && commissions.Valid()
    }

    constructor (users: UserRepo.UserRepository, properties: PropertyRepo.PropertyRepository,
                 requests: RequestRepo.RequestRepository, commissions: CommissionRepo.CommissionRepository)
      requires users.Valid() && properties.Valid() && requests.Valid() && commissions.Valid()
      ensures Valid()
      ensures this.users == users && this.properties == properties
      ensures this.requests == requests && this.commissions == commissions
    {
      this.users := users;
      this.properties := properties;
      this.requests := requests;
      this.commissions := commissions;
    }

    /** Every stored commission, each exactly once. */
    function AllCommissions(): (s: seq<Commission>)
      reads this, commissions
      requires commissions.Valid()
      ensures forall x :: x in s ==> x.id in commissions.rows && commissions.rows[x.id] == x
      ensures forall id :: id in commissions.rows ==> commissions.rows[id] in s
      ensures |s| == |commissions.rows|
    {
      var all := commissions.Matches(CommissionFilters(None, None));
      assert (set id | id in commissions.rows && CommissionRepo.Admits(CommissionFilters(None, None), commissions.rows[id]))
             == commissions.rows.Keys;
      all
    }

    /**
     * `getStats`: the table sizes, the numbers of unverified users and
     * properties and of pending requests, and the sums of all commission
     * amounts and fees (0 over an empty table).  Being a function, it changes
     * nothing.
     */
    function GetStats(): (r: AdminStats)
      reads this, users, properties, requests, commissions
      requires Valid()
      ensures r.totalUsers == |users.rows| && r.totalProperties == |properties.rows|
      ensures r.totalRequests == |requests.rows| && r.totalCommissions == |commissions.rows|
      ensures r.pendingUsers == |set id | id in users.rows && !users.rows[id].verified|
      ensures r.pendingProperties == |set id | id in properties.rows && !properties.rows[id].verified|
      ensures r.pendingRequests == |set id | id in requests.rows && requests.rows[id].status == PENDING|
      ensures r.pendingUsers <= r.totalUsers && r.pendingProperties <= r.totalProperties
      ensures r.pendingRequests <= r.totalRequests
      ensures r.totalCommissionAmount == SumAmounts(AllCommissions())
      ensures r.totalSmartRentFee == SumFees(AllCommissions())
      ensures commissions.rows == map[] ==> r.totalCommissionAmount == 0 && r.totalSmartRentFee == 0
    {
      var all := AllCommissions();
      var amount := if |commissions.rows| == 0 then None else Some(SumAmounts(all));
      var fee := if |commissions.rows| == 0 then None else Some(SumFees(all));
      AdminStats(
        |users.rows|, |properties.rows|, |requests.rows|, |commissions.rows|,
        UnverifiedUsers(users.rows), UnverifiedProperties(properties.rows), PendingRequests(requests.rows),
        OrZero(amount), OrZero(fee))
    }
  }

  /** `user.count({ where: { verified: false } })`. */
  function UnverifiedUsers(rows: map<Id, User>): (n: nat)
    ensures n == |set id | id in rows && !rows[id].verified| && n <= |rows|
  {
    Tables.CountIs(rows, UserRepo.Unverified, set id | id in rows && !rows[id].verified);
    Tables.CountAtMostSize(rows, UserRepo.Unverified);
    Tables.Count(rows, UserRepo.Unverified)
  }

  /** `property.count({ where: { verified: false } })`. */
  function UnverifiedProperties(rows: map<Id, Property>): (n: nat)
    ensures n == |set id | id in rows && !rows[id].verified| && n <= |rows|
  {
    Tables.CountIs(rows, PropertyRepo.Unverified, set id | id in rows && !rows[id].verified);
    Tables.CountAtMostSize(rows, PropertyRepo.Unverified);
    Tables.Count(rows, PropertyRepo.Unverified)
  }

  /** `request.count({ where: { status: 'PENDING' } })`. */
  function PendingRequests(rows: map<Id, Request>): (n: nat)
    ensures n == |set id | id in rows && rows[id].status == PENDING| && n <= |rows|
  {
    Tables.CountIs(rows, PendingRequest, set id | id in rows && rows[id].status == PENDING);
    Tables.CountAtMostSize(rows, PendingRequest);
    Tables.Count(rows, PendingRequest)
  }

  /**
   * When every commission was created by the commission service (its fee is
   * the fee of its amount) and no amount is negative, the total fee is
   * between zero and the total amount.
   */
  lemma TotalFeeWithinTotalAmount(admin: AdminService)
    requires admin.Valid() && CommissionService.FeesComputed(admin.commissions.rows)
    requires forall id :: id in admin.commissions.rows ==> admin.commissions.rows[id].amount >= 0
    ensures 0 <= admin.GetStats().totalSmartRentFee <= admin.GetStats().totalCommissionAmount
  {
    var s := admin.AllCommissions();
    assert forall i :: 0 <= i < |s| ==> s[i] in s;
    FeesWithinAmounts(s);
  }
}
