/** The global invariant of the rental workflow: identifiers are unique,
    every active rental refers to a vehicle of the fleet, and a vehicle is
    unavailable exactly when one active rental (of one customer) holds it. */
module Consistency {
  import opened Outcomes
  import opened Dates
  import opened Vehicles
  import opened Customers
  import opened Repositories
  import opened RentalCompany

  /** Number of rentals of `vehicleId` in a rental list. */
  function CountRentals(rentals: seq<RentalInfo>, vehicleId: string): nat {
    if |rentals| == 0 then 0
    else (if rentals[0].vehicleId == vehicleId then 1 else 0) + CountRentals(rentals[1..], vehicleId)
  }

  /** Number of active rentals of `vehicleId` over all customers. */
  function HoldCount(customers: seq<Customer>, vehicleId: string): nat {
    if |customers| == 0 then 0
    else CountRentals(customers[0].rentals, vehicleId) + HoldCount(customers[1..], vehicleId)
  }

  /** Every active rental names a vehicle of the fleet. */
  ghost predicate RentalsResolve(c: Company) {
    forall k, n :: 0 <= k < |c.roster.items| && 0 <= n < |c.roster.items[k].rentals| ==>
      SearchVehicle(c, c.roster.items[k].rentals[n].vehicleId).Some?
  }

  /** Availability mirrors the rentals: held by nobody when available, by
      exactly one rental when not. */
  ghost predicate AvailabilityMatchesHolds(c: Company) {
    forall i :: 0 <= i < |c.fleet.items| ==>
      HoldCount(c.roster.items, c.fleet.items[i].id) == if c.fleet.items[i].availability then 0 else 1
  }

  ghost predicate Consistent(c: Company) {
    && UniqueKeys(c.fleet.items, VehicleKey)
    && UniqueKeys(c.roster.items, CustomerKey)
    && RentalsResolve(c)
    && AvailabilityMatchesHolds(c)
  }

  // ---------------------------------------------------------------- counting

  lemma {:induction false} CountRentalsAppend(a: seq<RentalInfo>, b: seq<RentalInfo>, vehicleId: string)
    ensures CountRentals(a + b, vehicleId) == CountRentals(a, vehicleId) + CountRentals(b, vehicleId)
  {
    if |a| == 0 {
      assert a + b == b;
    } else {
      assert (a + b)[1..] == a[1..] + b;
      CountRentalsAppend(a[1..], b, vehicleId);
    }
  }

  /** A rental list holds a vehicle exactly when it counts at least one
      rental of it. */
  lemma {:induction false} CountRentalsPositive(rentals: seq<RentalInfo>, vehicleId: string)
    ensures CountRentals(rentals, vehicleId) > 0 <==>
      exists n :: 0 <= n < |rentals| && rentals[n].vehicleId == vehicleId
  {
    if |rentals| > 0 {
      CountRentalsPositive(rentals[1..], vehicleId);
      if rentals[0].vehicleId != vehicleId {
        forall n | 0 <= n < |rentals| && rentals[n].vehicleId == vehicleId
          ensures exists m :: 0 <= m < |rentals[1..]| && rentals[1..][m].vehicleId == vehicleId
        {
          assert rentals[1..][n - 1].vehicleId == vehicleId;
        }
      }
    }
  }

  /** Closing rental `i` lowers the count of its vehicle by one and leaves
      the counts of the other vehicles alone. */
  lemma CountRentalsErase(rentals: seq<RentalInfo>, i: nat, vehicleId: string)
    requires i < |rentals|
    ensures CountRentals(rentals[..i] + rentals[i + 1..], vehicleId)
         == CountRentals(rentals, vehicleId) - (if rentals[i].vehicleId == vehicleId then 1 else 0)
  {
    assert rentals == rentals[..i] + ([rentals[i]] + rentals[i + 1..]);
    CountRentalsAppend(rentals[..i], [rentals[i]] + rentals[i + 1..], vehicleId);
    CountRentalsAppend([rentals[i]], rentals[i + 1..], vehicleId);
    CountRentalsAppend(rentals[..i], rentals[i + 1..], vehicleId);
  }

  lemma {:induction false} HoldCountAppend(a: seq<Customer>, b: seq<Customer>, vehicleId: string)
    ensures HoldCount(a + b, vehicleId) == HoldCount(a, vehicleId) + HoldCount(b, vehicleId)
  {
    if |a| == 0 {
      assert a + b == b;
    } else {
      assert (a + b)[1..] == a[1..] + b;
      HoldCountAppend(a[1..], b, vehicleId);
    }
  }

  /** Replacing customer `i` changes the hold count by the difference of the
      two customers' own counts. */
  lemma HoldCountUpdate(cs: seq<Customer>, i: nat, c': Customer, vehicleId: string)
    requires i < |cs|
    ensures HoldCount(cs[i := c'], vehicleId)
         == HoldCount(cs, vehicleId) - CountRentals(cs[i].rentals, vehicleId) + CountRentals(c'.rentals, vehicleId)
  {
    assert cs == cs[..i] + ([cs[i]] + cs[i + 1..]);
    assert cs[i := c'] == cs[..i] + ([c'] + cs[i + 1..]);
    HoldCountAppend(cs[..i], [cs[i]] + cs[i + 1..], vehicleId);
    HoldCountAppend(cs[..i], [c'] + cs[i + 1..], vehicleId);
    HoldCountAppend([cs[i]], cs[i + 1..], vehicleId);
    HoldCountAppend([c'], cs[i + 1..], vehicleId);
  }

  lemma HoldCountAtLeast(cs: seq<Customer>, k: nat, vehicleId: string)
    requires k < |cs|
    ensures HoldCount(cs, vehicleId) >= CountRentals(cs[k].rentals, vehicleId)
  {
    HoldCountUpdate(cs, k, cs[k].(rentals := []), vehicleId);
  }

  /** A vehicle nobody has an active rental of has a hold count of zero. */
  lemma {:induction false} HoldCountZero(cs: seq<Customer>, vehicleId: string)
    requires forall k, n :: 0 <= k < |cs| && 0 <= n < |cs[k].rentals| ==> cs[k].rentals[n].vehicleId != vehicleId
    ensures HoldCount(cs, vehicleId) == 0
  {
    if |cs| > 0 {
      CountRentalsPositive(cs[0].rentals, vehicleId);
      HoldCountZero(cs[1..], vehicleId);
    }
  }

  /** With a hold count of one, exactly one customer holds the vehicle. */
  lemma {:induction false} HoldCountOne(cs: seq<Customer>, vehicleId: string)
    requires HoldCount(cs, vehicleId) == 1
    ensures exists k :: 0 <= k < |cs| && HasRentedVehicle(cs[k], vehicleId)
              && forall k' :: 0 <= k' < |cs| && k' != k ==> !HasRentedVehicle(cs[k'], vehicleId)
  {
    CountRentalsPositive(cs[0].rentals, vehicleId);
    if CountRentals(cs[0].rentals, vehicleId) == 1 {
      forall k' | 1 <= k' < |cs| ensures !HasRentedVehicle(cs[k'], vehicleId) {
        HoldCountAtLeast(cs[1..], k' - 1, vehicleId);
        CountRentalsPositive(cs[k'].rentals, vehicleId);
      }
    } else {
      HoldCountOne(cs[1..], vehicleId);
      var k :| 0 <= k < |cs[1..]| && HasRentedVehicle(cs[1..][k], vehicleId)
               && forall k' :: 0 <= k' < |cs[1..]| && k' != k ==> !HasRentedVehicle(cs[1..][k'], vehicleId);
      forall k' | 0 <= k' < |cs| && k' != k + 1 ensures !HasRentedVehicle(cs[k'], vehicleId) {
        if k' > 0 {
          assert cs[k'] == cs[1..][k' - 1];
        }
      }
    }
  }

  // --------------------------------------------------------------- the claim

  /** In a consistent company an available vehicle is held by no customer,
      and an unavailable one by exactly one. */
  lemma UnavailableIffHeldByOne(c: Company, i: nat)
    requires Consistent(c) && i < |c.fleet.items|
    ensures var v := c.fleet.items[i];
            && (v.availability ==> forall k :: 0 <= k < |c.roster.items| ==> !HasRentedVehicle(c.roster.items[k], v.id))
            && (!v.availability ==>
                  exists k :: 0 <= k < |c.roster.items| && HasRentedVehicle(c.roster.items[k], v.id)
                    && forall k' :: 0 <= k' < |c.roster.items| && k' != k ==> !HasRentedVehicle(c.roster.items[k'], v.id))
  {
    var v := c.fleet.items[i];
    if v.availability {
      forall k | 0 <= k < |c.roster.items| ensures !HasRentedVehicle(c.roster.items[k], v.id) {
        HoldCountAtLeast(c.roster.items, k, v.id);
        CountRentalsPositive(c.roster.items[k].rentals, v.id);
      }
    } else {
      HoldCountOne(c.roster.items, v.id);
    }
  }

  // ---------------------------------------------------------- preservation

  /** Replacing vehicle `vi` by one with the same identifier keeps every
      vehicle lookup's success or failure. */
  lemma SameFleetKeys(c: Company, c': Company, vi: nat)
    requires vi < |c.fleet.items| == |c'.fleet.items| && c'.fleet.items == c.fleet.items[vi := c'.fleet.items[vi]]
    requires c'.fleet.items[vi].id == c.fleet.items[vi].id
    ensures forall id :: SearchVehicle(c', id).Some? <==> SearchVehicle(c, id).Some?
    ensures UniqueKeys(c.fleet.items, VehicleKey) ==> UniqueKeys(c'.fleet.items, VehicleKey)
  {
    forall id ensures SearchVehicle(c', id).Some? <==> SearchVehicle(c, id).Some? {
      FindIndexSameKeys(c.fleet.items, c'.fleet.items, VehicleKey, id);
    }
  }

  /** Renting keeps the company consistent. */
  lemma RentPreservesConsistency(c: Company, customerId: int, vehicleId: string, today: Day)
    requires Consistent(c)
    requires RentalCompany.RentVehicle(c, customerId, vehicleId, today).Ok?
    ensures Consistent(RentalCompany.RentVehicle(c, customerId, vehicleId, today).value.company)
  {
    RentState(c, customerId, vehicleId, today);
    var ci := FindIndex(c.roster.items, CustomerKey, customerId).value;
    var vi := FindIndex(c.fleet.items, VehicleKey, vehicleId).value;
    OpenRentalPreserves(c, RentalCompany.RentVehicle(c, customerId, vehicleId, today).value.company,
                        ci, vi, RentalInfo(vehicleId, today, today + RentalDays));
  }

  /** Opening rental `added` of the available vehicle `vi` for customer
      `ci`, and making the vehicle unavailable, keeps the company
      consistent. */
  lemma OpenRentalPreserves(c: Company, out: Company, ci: nat, vi: nat, added: RentalInfo)
    requires Consistent(c)
    requires ci < |c.roster.items| && vi < |c.fleet.items|
    requires c.fleet.items[vi].availability && added.vehicleId == c.fleet.items[vi].id
    requires out.fleet.items == c.fleet.items[vi := SetAvailability(c.fleet.items[vi], false)]
    requires |out.roster.items| == |c.roster.items|
    requires out.roster.items == c.roster.items[ci := out.roster.items[ci]]
    requires out.roster.items[ci].id == c.roster.items[ci].id
    requires out.roster.items[ci].rentals == c.roster.items[ci].rentals + [added]
    ensures Consistent(out)
  {
    var v := c.fleet.items[vi];
    var cust := c.roster.items[ci];
    var cust' := out.roster.items[ci];
    SameFleetKeys(c, out, vi);
    // identifiers are unchanged
    assert forall k :: 0 <= k < |out.roster.items| ==> out.roster.items[k].id == c.roster.items[k].id;
    // every rental still resolves, and the new one names vehicle vi
    assert SearchVehicle(c, v.id).Some?;
    forall k, n | 0 <= k < |out.roster.items| && 0 <= n < |out.roster.items[k].rentals|
      ensures SearchVehicle(out, out.roster.items[k].rentals[n].vehicleId).Some?
    {
      if k == ci && n == |cust.rentals| {
      } else {
        assert out.roster.items[k].rentals[n] == c.roster.items[k].rentals[n];
      }
    }
    // the hold counts move only for the rented vehicle, from 0 to 1
    forall i | 0 <= i < |out.fleet.items|
      ensures HoldCount(out.roster.items, out.fleet.items[i].id)
           == if out.fleet.items[i].availability then 0 else 1
    {
      var id := c.fleet.items[i].id;
      HoldCountUpdate(c.roster.items, ci, cust', id);
      CountRentalsAppend(cust.rentals, [added], id);
      if i != vi {
        assert id != v.id by { assert VehicleKey(c.fleet.items[i]) != VehicleKey(c.fleet.items[vi]); }
      }
    }
  }

  /** The state a successful return produces: vehicle `vi` made available,
      and customer `ci` with rental `ri` closed. */
  lemma ReturnShape(c: Company, customerId: int, vehicleId: string, returnDate: DateText)
    returns (ci: nat, vi: nat, ri: nat)
    requires RentalCompany.ReturnVehicle(c, customerId, vehicleId, returnDate).Ok?
    ensures ci < |c.roster.items| && vi < |c.fleet.items|
    ensures FindIndex(c.fleet.items, VehicleKey, vehicleId) == Some(vi)
    ensures ri < |c.roster.items[ci].rentals| && c.roster.items[ci].rentals[ri].vehicleId == vehicleId
    ensures var out := RentalCompany.ReturnVehicle(c, customerId, vehicleId, returnDate).value.company;
            && out.fleet.items == c.fleet.items[vi := SetAvailability(c.fleet.items[vi], true)]
            && |out.roster.items| == |c.roster.items|
            && out.roster.items == c.roster.items[ci := out.roster.items[ci]]
            && out.roster.items[ci].id == c.roster.items[ci].id
            && out.roster.items[ci].rentals
               == c.roster.items[ci].rentals[..ri] + c.roster.items[ci].rentals[ri + 1..]
  {
    ci := FindIndex(c.roster.items, CustomerKey, customerId).value;
    vi := FindIndex(c.fleet.items, VehicleKey, vehicleId).value;
    ri := FindRental(c.roster.items[ci].rentals, vehicleId).value;
  }

  /** Closing rental `ri` of customer `ci` and making its vehicle `vi`
      available keeps the company consistent. */
  lemma CloseRentalPreserves(c: Company, out: Company, ci: nat, vi: nat, ri: nat)
    requires Consistent(c)
    requires ci < |c.roster.items| && vi < |c.fleet.items|
    requires ri < |c.roster.items[ci].rentals| && c.roster.items[ci].rentals[ri].vehicleId == c.fleet.items[vi].id
    requires out.fleet.items == c.fleet.items[vi := SetAvailability(c.fleet.items[vi], true)]
    requires |out.roster.items| == |c.roster.items|
    requires out.roster.items == c.roster.items[ci := out.roster.items[ci]]
    requires out.roster.items[ci].id == c.roster.items[ci].id
    requires out.roster.items[ci].rentals == c.roster.items[ci].rentals[..ri] + c.roster.items[ci].rentals[ri + 1..]
    ensures Consistent(out)
  {
    SameFleetKeys(c, out, vi);
    assert forall k :: 0 <= k < |out.roster.items| ==> out.roster.items[k].id == c.roster.items[k].id;
    CloseRentalResolves(c, out, ci, vi, ri);
    CloseRentalHolds(c, out, ci, vi, ri);
  }

  /** Every rental left after a return still names a fleet vehicle. */
  lemma CloseRentalResolves(c: Company, out: Company, ci: nat, vi: nat, ri: nat)
    requires RentalsResolve(c)
    requires vi < |c.fleet.items|
    requires out.fleet.items == c.fleet.items[vi := SetAvailability(c.fleet.items[vi], true)]
    requires ci < |c.roster.items| && |out.roster.items| == |c.roster.items|
    requires ri < |c.roster.items[ci].rentals|
    requires out.roster.items == c.roster.items[ci := out.roster.items[ci]]
    requires out.roster.items[ci].rentals == c.roster.items[ci].rentals[..ri] + c.roster.items[ci].rentals[ri + 1..]
    ensures RentalsResolve(out)
  {
    SameFleetKeys(c, out, vi);
    forall k, n | 0 <= k < |out.roster.items| && 0 <= n < |out.roster.items[k].rentals|
      ensures SearchVehicle(out, out.roster.items[k].rentals[n].vehicleId).Some?
    {
      var n' := RemainingRentalSource(c, out, ci, ri, k, n);
      assert SearchVehicle(c, c.roster.items[k].rentals[n'].vehicleId).Some?;
    }
  }

  /** Where a rental left after closing rental `ri` of customer `ci` sat
      before. */
  lemma RemainingRentalSource(c: Company, out: Company, ci: nat, ri: nat, k: nat, n: nat) returns (n': nat)
    requires ci < |c.roster.items| && |out.roster.items| == |c.roster.items|
    requires ri < |c.roster.items[ci].rentals|
    requires out.roster.items == c.roster.items[ci := out.roster.items[ci]]
    requires out.roster.items[ci].rentals == c.roster.items[ci].rentals[..ri] + c.roster.items[ci].rentals[ri + 1..]
    requires k < |out.roster.items| && n < |out.roster.items[k].rentals|
    ensures n' < |c.roster.items[k].rentals|
    ensures c.roster.items[k].rentals[n'].vehicleId == out.roster.items[k].rentals[n].vehicleId
  {
    if k == ci {
      var before := c.roster.items[ci].rentals;
      if n < ri {
        n' := n;
        assert out.roster.items[ci].rentals[n] == before[..ri][n];
      } else {
        n' := n + 1;
        assert out.roster.items[ci].rentals[n] == before[ri + 1..][n - ri];
      }
    } else {
      n' := n;
    }
  }

  /** After a return the returned vehicle is available and held by nobody,
      and every other vehicle keeps its availability and its hold. */
  lemma CloseRentalHolds(c: Company, out: Company, ci: nat, vi: nat, ri: nat)
    requires Consistent(c)
    requires ci < |c.roster.items| && vi < |c.fleet.items|
    requires ri < |c.roster.items[ci].rentals| && c.roster.items[ci].rentals[ri].vehicleId == c.fleet.items[vi].id
    requires out.fleet.items == c.fleet.items[vi := SetAvailability(c.fleet.items[vi], true)]
    requires |out.roster.items| == |c.roster.items|
    requires out.roster.items == c.roster.items[ci := out.roster.items[ci]]
    requires out.roster.items[ci].id == c.roster.items[ci].id
    requires out.roster.items[ci].rentals == c.roster.items[ci].rentals[..ri] + c.roster.items[ci].rentals[ri + 1..]
    ensures AvailabilityMatchesHolds(out)
  {
    var v := c.fleet.items[vi];
    var cust := c.roster.items[ci];
    var cust' := out.roster.items[ci];
    // the returned vehicle was held, so it was unavailable with a count of one
    CountRentalsPositive(cust.rentals, v.id);
    HoldCountAtLeast(c.roster.items, ci, v.id);
    assert !v.availability;
    forall i | 0 <= i < |out.fleet.items|
      ensures HoldCount(out.roster.items, out.fleet.items[i].id)
           == if out.fleet.items[i].availability then 0 else 1
    {
      var id := c.fleet.items[i].id;
      HoldCountUpdate(c.roster.items, ci, cust', id);
      CountRentalsErase(cust.rentals, ri, id);
      if i != vi {
        assert id != v.id by { assert VehicleKey(c.fleet.items[i]) != VehicleKey(c.fleet.items[vi]); }
      }
    }
  }

  /** Returning keeps the company consistent. */
  lemma ReturnPreservesConsistency(c: Company, customerId: int, vehicleId: string, returnDate: DateText)
    requires Consistent(c)
    requires RentalCompany.ReturnVehicle(c, customerId, vehicleId, returnDate).Ok?
    ensures Consistent(RentalCompany.ReturnVehicle(c, customerId, vehicleId, returnDate).value.company)
  {
    var ci, vi, ri := ReturnShape(c, customerId, vehicleId, returnDate);
    CloseRentalPreserves(c, RentalCompany.ReturnVehicle(c, customerId, vehicleId, returnDate).value.company, ci, vi, ri);
  }

  /** Removing a customer who holds nothing of a vehicle keeps its hold count. */
  lemma {:induction false} HoldCountRemove(cs: seq<Customer>, cust: Customer, vehicleId: string)
    requires CountRentals(cust.rentals, vehicleId) == 0
    ensures HoldCount(Remove(Repository(cs), cust).items, vehicleId) == HoldCount(cs, vehicleId)
  {
    if |cs| > 0 {
      RemoveUnfold(cs, cust);
      HoldCountRemove(cs[1..], cust, vehicleId);
      HoldCountAppend(if cs[0] == cust then [] else [cs[0]], Remove(Repository(cs[1..]), cust).items, vehicleId);
    }
  }

  /** The empty company is consistent. */
  lemma EmptyIsConsistent()
    ensures Consistent(EmptyCompany())
  {
  }

  /** Clearing gives the empty company, whatever was held. */
  lemma ClearIsEmpty(c: Company)
    ensures ClearData(c) == EmptyCompany()
    ensures Consistent(ClearData(c))
  {
  }

  /** Adding an available vehicle keeps the company consistent. */
  lemma AddVehiclePreserves(c: Company, v: Vehicle)
    requires Consistent(c) && v.availability
    requires AddVehicle(c, v).Ok?
    ensures Consistent(AddVehicle(c, v).value)
  {
    var out := AddVehicle(c, v).value;
    assert out.fleet.items == c.fleet.items + [v];
    // no active rental can name the new identifier: every rental resolves in the old fleet
    forall k, n | 0 <= k < |c.roster.items| && 0 <= n < |c.roster.items[k].rentals|
      ensures c.roster.items[k].rentals[n].vehicleId != v.id
    {
      assert SearchVehicle(c, c.roster.items[k].rentals[n].vehicleId).Some?;
    }
    HoldCountZero(c.roster.items, v.id);
    assert AvailabilityMatchesHolds(out) by {
      forall i | 0 <= i < |out.fleet.items|
        ensures HoldCount(out.roster.items, out.fleet.items[i].id)
             == if out.fleet.items[i].availability then 0 else 1
      {
        if i < |c.fleet.items| {
          assert out.fleet.items[i] == c.fleet.items[i];
        }
      }
    }
    assert UniqueKeys(out.fleet.items, VehicleKey) by {
      forall i | 0 <= i < |c.fleet.items| ensures c.fleet.items[i].id != v.id {
        assert c.fleet.items[i] in c.fleet.items;
      }
    }
  }

  /** Adding a customer with no active rentals keeps the company consistent. */
  lemma AddCustomerPreserves(c: Company, cust: Customer)
    requires Consistent(c) && |cust.rentals| == 0
    requires AddCustomer(c, cust).Ok?
    ensures Consistent(AddCustomer(c, cust).value)
  {
    var out := AddCustomer(c, cust).value;
    assert out.roster.items == c.roster.items + [cust];
    forall id ensures HoldCount(out.roster.items, id) == HoldCount(c.roster.items, id) {
      HoldCountAppend(c.roster.items, [cust], id);
    }
    assert RentalsResolve(out) by {
      forall k, n | 0 <= k < |out.roster.items| && 0 <= n < |out.roster.items[k].rentals|
        ensures SearchVehicle(out, out.roster.items[k].rentals[n].vehicleId).Some?
      {
        assert out.roster.items[k] == c.roster.items[k];
      }
    }
    assert UniqueKeys(out.roster.items, CustomerKey) by {
      forall i | 0 <= i < |c.roster.items| ensures c.roster.items[i].id != cust.id {
        assert c.roster.items[i] in c.roster.items;
      }
    }
  }

  /** Removing an available vehicle keeps the company consistent.  (Removing
      a rented one would leave its renter's rental pointing nowhere: the
      source does not refuse it.) */
  lemma RemoveVehiclePreserves(c: Company, id: string)
    requires Consistent(c)
    requires SearchVehicle(c, id).Some? && SearchVehicle(c, id).value.availability
    ensures RemoveVehicle(c, id).Ok?
    ensures Consistent(RemoveVehicle(c, id).value)
  {
    var v := SearchVehicle(c, id).value;
    var out := RemoveVehicle(c, id).value;
    assert out.fleet == Remove(c.fleet, v) && out.roster == c.roster;
    var vi :| 0 <= vi < |c.fleet.items| && c.fleet.items[vi] == v;
    UnavailableIffHeldByOne(c, vi);
    ShrinkFleetPreserves(c, out.fleet, v);
  }

  /** Dropping an available vehicle from a consistent fleet leaves a
      consistent company. */
  lemma ShrinkFleetPreserves(c: Company, fleet: Repository<Vehicle>, v: Vehicle)
    requires Consistent(c) && v in c.fleet.items
    requires forall k :: 0 <= k < |c.roster.items| ==> !HasRentedVehicle(c.roster.items[k], v.id)
    requires fleet == Remove(c.fleet, v)
    ensures Consistent(Company(fleet, c.roster))
  {
    RemoveUniqueKeys(c.fleet, VehicleKey, v);
    ShrinkFleetResolves(c, fleet, v);
    ShrinkFleetHolds(c, fleet);
  }

  lemma ShrinkFleetResolves(c: Company, fleet: Repository<Vehicle>, v: Vehicle)
    requires RentalsResolve(c)
    requires forall k :: 0 <= k < |c.roster.items| ==> !HasRentedVehicle(c.roster.items[k], v.id)
    requires forall x :: x in fleet.items <==> x in c.fleet.items && x != v
    ensures RentalsResolve(Company(fleet, c.roster))
  {
    var out := Company(fleet, c.roster);
    forall k, n | 0 <= k < |out.roster.items| && 0 <= n < |out.roster.items[k].rentals|
      ensures SearchVehicle(out, out.roster.items[k].rentals[n].vehicleId).Some?
    {
      var w := c.roster.items[k].rentals[n].vehicleId;
      assert w != v.id by { assert HasRentedVehicle(c.roster.items[k], w); }
      var u := SearchVehicle(c, w).value;
      assert u in c.fleet.items;
      assert u in out.fleet.items;
    }
  }

  lemma ShrinkFleetHolds(c: Company, fleet: Repository<Vehicle>)
    requires AvailabilityMatchesHolds(c)
    requires forall x :: x in fleet.items ==> x in c.fleet.items
    ensures AvailabilityMatchesHolds(Company(fleet, c.roster))
  {
    forall i | 0 <= i < |fleet.items|
      ensures HoldCount(c.roster.items, fleet.items[i].id) == if fleet.items[i].availability then 0 else 1
    {
      assert fleet.items[i] in c.fleet.items;
    }
  }

  /** Removing a customer with no active rentals keeps the company
      consistent.  (The source does not release a removed customer's
      vehicles.) */
  lemma RemoveCustomerPreserves(c: Company, id: int)
    requires Consistent(c)
    requires SearchCustomer(c, id).Some? && |SearchCustomer(c, id).value.rentals| == 0
    ensures RemoveCustomer(c, id).Ok?
    ensures Consistent(RemoveCustomer(c, id).value)
  {
    var cust := SearchCustomer(c, id).value;
    var out := RemoveCustomer(c, id).value;
    assert out.roster == Remove(c.roster, cust) && out.fleet == c.fleet;
    ShrinkRosterPreserves(c, out.roster, cust);
  }

  /** Dropping a customer without active rentals from a consistent roster
      leaves a consistent company. */
  lemma ShrinkRosterPreserves(c: Company, roster: Repository<Customer>, cust: Customer)
    requires Consistent(c) && |cust.rentals| == 0
    requires roster == Remove(c.roster, cust)
    ensures Consistent(Company(c.fleet, roster))
  {
    RemoveUniqueKeys(c.roster, CustomerKey, cust);
    ShrinkRosterResolves(c, roster);
    forall vid ensures HoldCount(roster.items, vid) == HoldCount(c.roster.items, vid) {
      HoldCountRemove(c.roster.items, cust, vid);
    }
  }

  lemma ShrinkRosterResolves(c: Company, roster: Repository<Customer>)
    requires RentalsResolve(c)
    requires forall x :: x in roster.items ==> x in c.roster.items
    ensures RentalsResolve(Company(c.fleet, roster))
  {
    forall k, n | 0 <= k < |roster.items| && 0 <= n < |roster.items[k].rentals|
      ensures SearchVehicle(c, roster.items[k].rentals[n].vehicleId).Some?
    {
      assert roster.items[k] in c.roster.items;
      var k' :| 0 <= k' < |c.roster.items| && c.roster.items[k'] == roster.items[k];
      assert SearchVehicle(c, c.roster.items[k'].rentals[n].vehicleId).Some?;
    }
  }

  /** With unique identifiers, a removed vehicle is gone: looking it up
      afterwards finds nothing, and the others are still found. */
  lemma RemoveVehicleForgets(c: Company, id: string)
    requires UniqueKeys(c.fleet.items, VehicleKey)
    requires RemoveVehicle(c, id).Ok?
    ensures SearchVehicle(RemoveVehicle(c, id).value, id).None?
    ensures forall other :: other != id ==> SearchVehicle(RemoveVehicle(c, id).value, other) == SearchVehicle(c, other)
  {
    var v := SearchVehicle(c, id).value;
    RemoveForgets(c.fleet, VehicleKey, v);
  }

  /** With unique identifiers, a removed customer is gone: looking it up
      afterwards finds nothing, and the others are still found. */
  lemma RemoveCustomerForgets(c: Company, id: int)
    requires UniqueKeys(c.roster.items, CustomerKey)
    requires RemoveCustomer(c, id).Ok?
    ensures SearchCustomer(RemoveCustomer(c, id).value, id).None?
    ensures forall other :: other != id ==> SearchCustomer(RemoveCustomer(c, id).value, other) == SearchCustomer(c, other)
  {
    var cust := SearchCustomer(c, id).value;
    RemoveForgets(c.roster, CustomerKey, cust);
  }

  /** In a consistent company the renter held nothing of the vehicle
      before, so the new rental is the only one of it. */
  lemma RentStartsOnlyHold(c: Company, customerId: int, vehicleId: string, today: Day)
    requires Consistent(c)
    requires RentalCompany.RentVehicle(c, customerId, vehicleId, today).Ok?
    ensures var mid := RentalCompany.RentVehicle(c, customerId, vehicleId, today).value.company;
            var before := SearchCustomer(c, customerId).value.rentals;
            && SearchCustomer(mid, customerId).Some?
            && SearchCustomer(mid, customerId).value.rentals == before + [RentalInfo(vehicleId, today, today + 7)]
            && FindRental(SearchCustomer(mid, customerId).value.rentals, vehicleId) == Some(|before|)
            && SearchVehicle(mid, vehicleId) == Some(SetAvailability(SearchVehicle(c, vehicleId).value, false))
  {
    RentState(c, customerId, vehicleId, today);
    FirstHoldLookups(c, RentalCompany.RentVehicle(c, customerId, vehicleId, today).value.company,
                     customerId, vehicleId, today,
                     FindIndex(c.roster.items, CustomerKey, customerId).value,
                     FindIndex(c.fleet.items, VehicleKey, vehicleId).value);
  }

  /** Lookups in a consistent company where customer `ci` has rented the
      available vehicle `vi`. */
  lemma FirstHoldLookups(c: Company, mid: Company, customerId: int, vehicleId: string, today: Day, ci: nat, vi: nat)
    requires Consistent(c)
    requires FindIndex(c.roster.items, CustomerKey, customerId) == Some(ci)
    requires FindIndex(c.fleet.items, VehicleKey, vehicleId) == Some(vi)
    requires c.fleet.items[vi].availability
    requires mid.fleet == UpdateAt(c.fleet, vi, SetAvailability(c.fleet.items[vi], false))
    requires mid.roster == UpdateAt(c.roster, ci, AfterRent(c.roster.items[ci], vehicleId, today))
    ensures var before := SearchCustomer(c, customerId).value.rentals;
            && SearchCustomer(mid, customerId).Some?
            && SearchCustomer(mid, customerId).value.rentals == before + [RentalInfo(vehicleId, today, today + 7)]
            && FindRental(SearchCustomer(mid, customerId).value.rentals, vehicleId) == Some(|before|)
            && SearchVehicle(mid, vehicleId) == Some(SetAvailability(SearchVehicle(c, vehicleId).value, false))
  {
    var cust := c.roster.items[ci];
    var cust' := AfterRent(cust, vehicleId, today);
    AvailableHeldByNobody(c, vi, ci);
    assert FindRental(cust'.rentals, vehicleId) == Some(|cust.rentals|) by {
      assert cust'.rentals[|cust.rentals|].vehicleId == vehicleId;
    }
    UpdatedLookups(c, mid, ci, vi, cust', SetAvailability(c.fleet.items[vi], false));
  }

  /** In a consistent company no customer holds an available vehicle. */
  lemma AvailableHeldByNobody(c: Company, i: nat, k: nat)
    requires Consistent(c) && i < |c.fleet.items| && k < |c.roster.items|
    requires c.fleet.items[i].availability
    ensures !HasRentedVehicle(c.roster.items[k], c.fleet.items[i].id)
  {
    HoldCountAtLeast(c.roster.items, k, c.fleet.items[i].id);
    CountRentalsPositive(c.roster.items[k].rentals, c.fleet.items[i].id);
  }

  /** In a consistent company, renting an available vehicle and then
      returning it on day `ret` restores the vehicle and the customer's
      rentals, and the return is late by `ret - (today + 7)` days when that
      is positive. */
  lemma RentThenReturnCompany(c: Company, customerId: int, vehicleId: string, today: Day, ret: Day)
    requires Consistent(c)
    requires RentalCompany.RentVehicle(c, customerId, vehicleId, today).Ok?
    ensures var mid := RentalCompany.RentVehicle(c, customerId, vehicleId, today).value.company;
            var r := RentalCompany.ReturnVehicle(mid, customerId, vehicleId, Valid(ret));
            && r.Ok?
            && r.value.daysLate == (if ret - (today + 7) > 0 then ret - (today + 7) else 0)
            && SearchVehicle(r.value.company, vehicleId) == SearchVehicle(c, vehicleId)
            && SearchCustomer(r.value.company, customerId).Some?
            && SearchCustomer(r.value.company, customerId).value.rentals == SearchCustomer(c, customerId).value.rentals
  {
    var mid := RentalCompany.RentVehicle(c, customerId, vehicleId, today).value.company;
    RentStartsOnlyHold(c, customerId, vehicleId, today);
    var v := SearchVehicle(c, vehicleId).value;
    ReturnOnlyHold(mid, customerId, vehicleId, ret, SearchCustomer(c, customerId).value.rentals,
                   RentalInfo(vehicleId, today, today + 7), SetAvailability(v, false));
    assert SetAvailability(SetAvailability(v, false), true) == v;
  }

  /** Returning a vehicle whose one rental is the customer's last: the
      receipt counts the days late from that rental's due date, the vehicle
      becomes available, and the earlier rentals are what remains. */
  lemma ReturnOnlyHold(mid: Company, customerId: int, vehicleId: string, ret: Day,
                       before: seq<RentalInfo>, held: RentalInfo, v: Vehicle)
    requires SearchCustomer(mid, customerId).Some? && SearchVehicle(mid, vehicleId) == Some(v)
    requires held.vehicleId == vehicleId
    requires SearchCustomer(mid, customerId).value.rentals == before + [held]
    requires FindRental(SearchCustomer(mid, customerId).value.rentals, vehicleId) == Some(|before|)
    ensures var r := RentalCompany.ReturnVehicle(mid, customerId, vehicleId, Valid(ret));
            && r.Ok?
            && r.value.daysLate == (if ret - held.dueDate > 0 then ret - held.dueDate else 0)
            && SearchVehicle(r.value.company, vehicleId) == Some(SetAvailability(v, true))
            && SearchCustomer(r.value.company, customerId).Some?
            && SearchCustomer(r.value.company, customerId).value.rentals == before
  {
    var rentals := before + [held];
    assert rentals[..|before|] + rentals[|before| + 1..] == before;
    ReturnEffect(mid, customerId, vehicleId, Valid(ret));
    ReturnCharges(mid, customerId, vehicleId, Valid(ret));
  }
}
