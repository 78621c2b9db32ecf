/** src/services/commission.service.ts: commissioner checks and the platform fee. */
module CommissionService {
  import opened Wrappers
  import opened Domain
  import opened UserRepo
  import opened PropertyRepo
  import opened CommissionRepo

  const CommissionerNotFound := "Commissioner not found"
  const NotCommissioner := "User must be a commissioner"
  const CommissionerNotVerified := "Commissioner must be verified"
  const PropertyNotFound := "Property not found"

  /** The fee rate, 5%, as the fraction FeeNumerator / FeeDenominator. */
  const FeeNumerator := 1
  const FeeDenominator := 20

  /**
   * `Math.round(amount * 0.05)`: the integer nearest to amount/20, a tie
   * (an amount ending in an odd multiple of 10) rounding up.
   */
  function Fee(amount: int): (fee: int)
    ensures FeeDenominator * fee <= FeeNumerator * amount + 10 < FeeDenominator * fee + FeeDenominator
  {
    (FeeNumerator * amount + 10) / FeeDenominator
  }

  /** For a non-negative amount the fee is between zero and the amount. */
  lemma FeeBounds(amount: int)
    requires amount >= 0
    ensures 0 <= Fee(amount) <= amount
  {
  }

  /** The fee is the nearest integer to amount/20: it is off by at most half a unit. */
  lemma FeeIsNearest(amount: int)
    ensures -10 < FeeDenominator * Fee(amount) - amount <= 10
  {
  }

  lemma FeeExamples()
    ensures Fee(50000) == 2500 && Fee(10) == 1 && Fee(9) == 0 && Fee(30) == 2 && Fee(0) == 0
  {
  }

  /** Every commission's fee is the fee of its amount. */
  ghost predicate FeesComputed(rows: map<Id, Commission>) {
    forall id :: id in rows ==> rows[id].smartRentFee == Fee(rows[id].amount)
  }

  class CommissionService {
    const commissions: CommissionRepository
    const users: UserRepository
    const properties: PropertyRepository

    /** The table is well formed and every stored fee was computed from its amount. */
    ghost predicate Valid()
      reads this, commissions
    {
      commissions.Valid() && FeesComputed(commissions.rows)
    }

    constructor (commissions: CommissionRepository, users: UserRepository, properties: PropertyRepository)
      requires commissions.Valid() && FeesComputed(commissions.rows)
      ensures Valid() && this.commissions == commissions && this.users == users && this.properties == properties
    {
      this.commissions := commissions;
      this.users := users;
      this.properties := properties;
    }

    /**
     * `createCommission`: the commissioner checks, then the property check, in
     * that order; a property of any status is accepted.  Success stores one
     * commission with the given ids and amount and the computed fee.
     */
    method CreateCommission(dto: CommissionDTO, id: Id) returns (r: Result<Commission>)
      requires Valid() && id != "" && id !in commissions.rows
      modifies commissions
      ensures Valid()
      ensures dto.commissionerId !in users.rows ==> r == Err(CommissionerNotFound)
      ensures dto.commissionerId in users.rows && users.rows[dto.commissionerId].role != COMMISSIONER
              ==> r == Err(NotCommissioner)
      ensures (dto.commissionerId in users.rows && users.rows[dto.commissionerId].role == COMMISSIONER
               && !users.rows[dto.commissionerId].verified) ==> r == Err(CommissionerNotVerified)
      ensures (dto.commissionerId in users.rows && users.rows[dto.commissionerId].role == COMMISSIONER
               && users.rows[dto.commissionerId].verified && dto.propertyId !in properties.rows)
              ==> r == Err(PropertyNotFound)
      ensures r.Ok? <==> dto.commissionerId in users.rows && users.rows[dto.commissionerId].role == COMMISSIONER
                         && users.rows[dto.commissionerId].verified && dto.propertyId in properties.rows
      ensures r.Err? ==> commissions.rows == old(commissions.rows) && commissions.order == old(commissions.order)
                         && commissions.clock == old(commissions.clock)
      ensures r.Ok? ==> r.value == Commission(id, dto.propertyId, dto.commissionerId, dto.amount, Fee(dto.amount),
                                              old(commissions.clock))
                        && commissions.rows == old(commissions.rows)[id := r.value]
                        && commissions.order == old(commissions.order) + [id]
                        && commissions.clock == old(commissions.clock) + 1
    {
      var commissioner := users.FindById(dto.commissionerId);
      if commissioner.None? {
        return Err(CommissionerNotFound);
      }
      if commissioner.value.role != COMMISSIONER {
        return Err(NotCommissioner);
      }
      if !commissioner.value.verified {
        return Err(CommissionerNotVerified);
      }
      var property := properties.FindById(dto.propertyId);
      if property.None? {
        return Err(PropertyNotFound);
      }
      var fee := Fee(dto.amount);
      var x := commissions.Create(id, NewCommission(dto.propertyId, dto.commissionerId, dto.amount, fee));
      r := Ok(x);
    }
  }
}
