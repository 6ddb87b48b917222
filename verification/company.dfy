/** The rental workflow: a fleet of vehicles and a roster of customers, with
    adding and removing entries, renting and returning, and the fee and
    loyalty-point rules. */
module RentalCompany {
  import opened Outcomes
  import opened Dates
  import opened Vehicles
  import opened Customers
  import opened Repositories

  datatype Company = Company(fleet: Repository<Vehicle>, roster: Repository<Customer>)

  /** The fixed rental period, in days. */
  const RentalDays: int := 7
  /** Percentage of the cost taken off by a loyalty discount. */
  const DiscountPercent: int := 30
  /** Points earned by every rental. */
  const RentalPoints: int := 10
  /** Points earned by a return that is not late. */
  const TimelyReturnPoints: int := 5

  function VehicleKey(v: Vehicle): string { v.id }
  function CustomerKey(c: Customer): int { c.id }

  function EmptyCompany(): Company {
    Company(Repository([]), Repository([]))
  }

  /** `searchVehicle`: the vehicle with identifier `id`, if any. */
  function SearchVehicle(c: Company, id: string): (o: Option<Vehicle>)
    ensures o.Some? ==> o.value in c.fleet.items && o.value.id == id
    ensures o.None? <==> forall v :: v in c.fleet.items ==> v.id != id
  {
    FindById(c.fleet, VehicleKey, id)
  }

  /** `searchCustomer`: the customer with identifier `id`, if any. */
  function SearchCustomer(c: Company, id: int): (o: Option<Customer>)
    ensures o.Some? ==> o.value in c.roster.items && o.value.id == id
    ensures o.None? <==> forall x :: x in c.roster.items ==> x.id != id
  {
    FindById(c.roster, CustomerKey, id)
  }

  /** `addVehicle`: refuse a vehicle whose identifier is already in the fleet,
      otherwise append it. */
  function AddVehicle(c: Company, v: Vehicle): (r: Result<Company>)
    ensures r.Err? <==> SearchVehicle(c, v.id).Some?
    ensures r.Err? ==> r.error == DuplicateVehicleId
    ensures r.Ok? ==> r.value.roster == c.roster && r.value.fleet == Add(c.fleet, v)
    ensures r.Ok? ==> SearchVehicle(r.value, v.id) == Some(v)
    ensures r.Ok? ==> forall id :: id != v.id ==> SearchVehicle(r.value, id) == SearchVehicle(c, id)
  {
    if SearchVehicle(c, v.id).Some? then Err(DuplicateVehicleId)
    else
      var c' := Company(Add(c.fleet, v), c.roster);
      AddedVehicleLookups(c, v);
      Ok(c')
  }

  lemma AddedVehicleLookups(c: Company, v: Vehicle)
    ensures forall id :: SearchVehicle(Company(Add(c.fleet, v), c.roster), id)
                      == if SearchVehicle(c, id).Some? then SearchVehicle(c, id)
                         else if v.id == id then Some(v) else None
  {
    var c' := Company(Add(c.fleet, v), c.roster);
    forall id
      ensures SearchVehicle(c', id) == if SearchVehicle(c, id).Some? then SearchVehicle(c, id)
                                       else if v.id == id then Some(v) else None
    {
      AddThenFind(c.fleet, VehicleKey, v, id);
    }
  }

  /** `removeVehicle`: fail when no vehicle has identifier `id`; otherwise
      remove the vehicle found. */
  function RemoveVehicle(c: Company, id: string): (r: Result<Company>)
    ensures r.Err? <==> SearchVehicle(c, id).None?
    ensures r.Err? ==> r.error == VehicleNotFound
    ensures r.Ok? ==> r.value.roster == c.roster
    ensures r.Ok? ==> SearchVehicle(c, id).value !in r.value.fleet.items
    ensures r.Ok? ==> IsSubsequence(r.value.fleet.items, c.fleet.items)
    ensures r.Ok? ==> forall x :: x != SearchVehicle(c, id).value ==>
                        multiset(r.value.fleet.items)[x] == multiset(c.fleet.items)[x]
  {
    match SearchVehicle(c, id)
    case None => Err(VehicleNotFound)
    case Some(v) => Ok(Company(Remove(c.fleet, v), c.roster))
  }

  /** `addCustomer`: refuse a customer whose identifier is already on the
      roster, otherwise append it. */
  function AddCustomer(c: Company, cust: Customer): (r: Result<Company>)
    ensures r.Err? <==> SearchCustomer(c, cust.id).Some?
    ensures r.Err? ==> r.error == DuplicateCustomerId
    ensures r.Ok? ==> r.value.fleet == c.fleet && r.value.roster == Add(c.roster, cust)
    ensures r.Ok? ==> SearchCustomer(r.value, cust.id) == Some(cust)
    ensures r.Ok? ==> forall id :: id != cust.id ==> SearchCustomer(r.value, id) == SearchCustomer(c, id)
  {
    if SearchCustomer(c, cust.id).Some? then Err(DuplicateCustomerId)
    else
      var c' := Company(c.fleet, Add(c.roster, cust));
      AddedCustomerLookups(c, cust);
      Ok(c')
  }

  lemma AddedCustomerLookups(c: Company, cust: Customer)
    ensures forall id :: SearchCustomer(Company(c.fleet, Add(c.roster, cust)), id)
                      == if SearchCustomer(c, id).Some? then SearchCustomer(c, id)
                         else if cust.id == id then Some(cust) else None
  {
    var c' := Company(c.fleet, Add(c.roster, cust));
    forall id
      ensures SearchCustomer(c', id) == if SearchCustomer(c, id).Some? then SearchCustomer(c, id)
                                        else if cust.id == id then Some(cust) else None
    {
      AddThenFind(c.roster, CustomerKey, cust, id);
    }
  }

  /** `removeCustomer`: fail when no customer has identifier `id`; otherwise
      remove the customer found. */
  function RemoveCustomer(c: Company, id: int): (r: Result<Company>)
    ensures r.Err? <==> SearchCustomer(c, id).None?
    ensures r.Err? ==> r.error == CustomerNotFound
    ensures r.Ok? ==> r.value.fleet == c.fleet
    ensures r.Ok? ==> SearchCustomer(c, id).value !in r.value.roster.items
    ensures r.Ok? ==> IsSubsequence(r.value.roster.items, c.roster.items)
    ensures r.Ok? ==> forall x :: x != SearchCustomer(c, id).value ==>
                        multiset(r.value.roster.items)[x] == multiset(c.roster.items)[x]
  {
    match SearchCustomer(c, id)
    case None => Err(CustomerNotFound)
    case Some(cust) => Ok(Company(c.fleet, Remove(c.roster, cust)))
  }

  /** `clearData`: empty both repositories. */
  function ClearData(c: Company): (r: Company)
    ensures |r.fleet.items| == 0 && |r.roster.items| == 0
  {
    Company(Clear(c.fleet), Clear(c.roster))
  }

  /** `calculateRentalCost`: the base rate times the number of days. */
  function CalculateRentalCost(v: Vehicle, days: int): (cost: int)
    ensures v.kind == Car ==> cost == 5000 * days
    ensures v.kind == Van ==> cost == 10000 * days
    ensures v.kind == Minibus ==> cost == 6500 * days
    ensures v.kind == SUV ==> cost == 8000 * days
  {
    BaseRentalRate(v) * days
  }

  /** What a successful rental reports: the new state, the cost charged, the
      discount taken off, and the points earned. */
  datatype RentReceipt = RentReceipt(company: Company, cost: int, discount: int, pointsEarned: int)

  /** `rentVehicle`: the guards run in order (customer, vehicle, availability);
      then the cost of the fixed period is quoted, a loyalty discount is
      applied when the customer has enough points, the rental is recorded from
      `today`, the vehicle becomes unavailable and the customer earns points. */
  function RentVehicle(c: Company, customerId: int, vehicleId: string, today: Day): (r: Result<RentReceipt>)
    ensures SearchCustomer(c, customerId).None? ==> r == Err(CustomerNotFound)
    ensures SearchCustomer(c, customerId).Some? && SearchVehicle(c, vehicleId).None? ==> r == Err(VehicleNotFound)
    ensures (SearchCustomer(c, customerId).Some? && SearchVehicle(c, vehicleId).Some?
             && !SearchVehicle(c, vehicleId).value.availability) ==> r == Err(VehicleUnavailable)
    ensures r.Ok? <==> SearchCustomer(c, customerId).Some? && SearchVehicle(c, vehicleId).Some?
                       && SearchVehicle(c, vehicleId).value.availability
  {
    match FindIndex(c.roster.items, CustomerKey, customerId)
    case None => Err(CustomerNotFound)
    case Some(ci) =>
      match FindIndex(c.fleet.items, VehicleKey, vehicleId)
      case None => Err(VehicleNotFound)
      case Some(vi) =>
        var v := c.fleet.items[vi];
        if !v.availability then Err(VehicleUnavailable)
        else
          var fullCost := CalculateRentalCost(v, RentalDays);
          var cust := c.roster.items[ci];
          var d := if cust.loyaltyPoints >= DiscountThreshold then ApplyLoyaltyDiscount(cust)
                   else Discounted(cust, false);
          var discount := if d.applied then fullCost * DiscountPercent / 100 else 0;
          var rentDate := today;
          var dueDate := AddDays(rentDate, RentalDays);
          var cust' := AddLoyaltyPoints(Customers.RentVehicle(d.customer, v.id, rentDate, dueDate), RentalPoints);
          var v' := SetAvailability(v, false);
          Ok(RentReceipt(Company(UpdateAt(c.fleet, vi, v'), UpdateAt(c.roster, ci, cust')),
                         fullCost - discount, discount, RentalPoints))
  }

  /** What a successful return reports: the new state, the days late, the
      late fee, and the bonus points earned. */
  datatype ReturnReceipt = ReturnReceipt(company: Company, daysLate: nat, lateFee: int, bonusPoints: int)

  /** `returnVehicle`: the guards run in order (customer, vehicle, whether the
      customer holds the vehicle, the return date); then the rental is closed,
      the vehicle becomes available, and a late return is charged per day
      while a timely one earns bonus points. */
  function ReturnVehicle(c: Company, customerId: int, vehicleId: string, returnDate: DateText): (r: Result<ReturnReceipt>)
    ensures SearchCustomer(c, customerId).None? ==> r == Err(CustomerNotFound)
    ensures SearchCustomer(c, customerId).Some? && SearchVehicle(c, vehicleId).None? ==> r == Err(VehicleNotFound)
    ensures (SearchCustomer(c, customerId).Some? && SearchVehicle(c, vehicleId).Some?
             && !HasRentedVehicle(SearchCustomer(c, customerId).value, vehicleId)) ==> r == Err(NotRented)
    ensures (SearchCustomer(c, customerId).Some? && SearchVehicle(c, vehicleId).Some?
             && HasRentedVehicle(SearchCustomer(c, customerId).value, vehicleId)
             && returnDate.Unparseable?) ==> r == Err(InvalidDate)
    ensures r.Ok? <==> SearchCustomer(c, customerId).Some? && SearchVehicle(c, vehicleId).Some?
                       && HasRentedVehicle(SearchCustomer(c, customerId).value, vehicleId) && returnDate.Valid?
  {
    match FindIndex(c.roster.items, CustomerKey, customerId)
    case None => Err(CustomerNotFound)
    case Some(ci) =>
      match FindIndex(c.fleet.items, VehicleKey, vehicleId)
      case None => Err(VehicleNotFound)
      case Some(vi) =>
        var v := c.fleet.items[vi];
        var cust := c.roster.items[ci];
        if !HasRentedVehicle(cust, v.id) then Err(NotRented)
        else
          match Customers.ReturnVehicle(cust, v.id, returnDate)
          case Err(e) => Err(e)
          case Ok(back) =>
            var fleet' := UpdateAt(c.fleet, vi, SetAvailability(v, true));
            if back.daysLate > 0 then
              Ok(ReturnReceipt(Company(fleet', UpdateAt(c.roster, ci, back.customer)),
                               back.daysLate, back.daysLate * v.lateFee, 0))
            else
              Ok(ReturnReceipt(Company(fleet', UpdateAt(c.roster, ci, AddLoyaltyPoints(back.customer, TimelyReturnPoints))),
                               0, 0, TimelyReturnPoints))
  }

  /** The seven-day cost of every variant is a whole number of cents after a
      30% discount. */
  lemma DiscountIsExact(v: Vehicle)
    ensures CalculateRentalCost(v, RentalDays) * DiscountPercent % 100 == 0
  {
    match v.kind
    case Car =>
    case Van =>
    case Minibus =>
    case SUV =>
  }

  /** A successful rental: the cost is seven days at the base rate, 30% off
      when the customer had at least 100 points; the customer spends 100
      points on the discount and earns 10 (so ends at p - 90), or just earns
      10; the customer gains one rental from `today` due seven days later; the
      vehicle becomes unavailable; every other vehicle and customer is as
      before. */
  lemma RentEffect(c: Company, customerId: int, vehicleId: string, today: Day)
    requires RentVehicle(c, customerId, vehicleId, today).Ok?
    ensures SearchCustomer(c, customerId).Some? && SearchVehicle(c, vehicleId).Some?
    ensures var out := RentVehicle(c, customerId, vehicleId, today).value;
            var cust := SearchCustomer(c, customerId).value;
            var v := SearchVehicle(c, vehicleId).value;
            var full := BaseRentalRate(v) * 7;
            var p := cust.loyaltyPoints;
            && out.cost == (if p >= 100 then full * 70 / 100 else full)
            && out.discount == full - out.cost
            && out.pointsEarned == 10
            && |out.company.fleet.items| == |c.fleet.items|
            && |out.company.roster.items| == |c.roster.items|
            && SearchVehicle(out.company, vehicleId) == Some(SetAvailability(v, false))
            && SearchCustomer(out.company, customerId) == Some(AfterRent(cust, vehicleId, today))
            && AfterRent(cust, vehicleId, today)
               == cust.(rentals := cust.rentals + [RentalInfo(vehicleId, today, today + 7)],
                        loyaltyPoints := if p >= 100 then p - 90 else p + 10)
            && (forall id :: id != vehicleId ==> SearchVehicle(out.company, id) == SearchVehicle(c, id))
            && (forall id :: id != customerId ==> SearchCustomer(out.company, id) == SearchCustomer(c, id))
  {
    RentState(c, customerId, vehicleId, today);
    var out := RentVehicle(c, customerId, vehicleId, today).value;
    var ci := FindIndex(c.roster.items, CustomerKey, customerId).value;
    var vi := FindIndex(c.fleet.items, VehicleKey, vehicleId).value;
    DiscountIsExact(c.fleet.items[vi]);
    UpdatedLookups(c, out.company, ci, vi, out.company.roster.items[ci], out.company.fleet.items[vi]);
  }

  /** The customer after renting `vehicleId` on `today`: a rental due seven
      days later is appended, and the points go down by the 100 the discount
      spends (when at least 100 are held) and up by the 10 a rental earns. */
  function AfterRent(cust: Customer, vehicleId: string, today: Day): Customer
  {
    var p := cust.loyaltyPoints;
    cust.(rentals := cust.rentals + [RentalInfo(vehicleId, today, AddDays(today, RentalDays))],
          loyaltyPoints := if p >= DiscountThreshold then p - DiscountThreshold + RentalPoints else p + RentalPoints)
  }

  /** The state a successful rental leaves, by position. */
  lemma RentState(c: Company, customerId: int, vehicleId: string, today: Day)
    requires RentVehicle(c, customerId, vehicleId, today).Ok?
    ensures var out := RentVehicle(c, customerId, vehicleId, today).value;
            var ci := FindIndex(c.roster.items, CustomerKey, customerId).value;
            var vi := FindIndex(c.fleet.items, VehicleKey, vehicleId).value;
            var cust := c.roster.items[ci];
            var v := c.fleet.items[vi];
            && v.availability
            && out.company.fleet == UpdateAt(c.fleet, vi, SetAvailability(v, false))
            && out.company.roster == UpdateAt(c.roster, ci, AfterRent(cust, vehicleId, today))
  {
  }

  /** What a successful return charges: the date parsed; the days late are
      counted from the due date of the customer's first rental of the
      vehicle; a late return is charged the days late times the vehicle's
      late fee and earns nothing, a timely one costs nothing and earns
      exactly 5 points. */
  lemma ReturnCharges(c: Company, customerId: int, vehicleId: string, returnDate: DateText)
    requires ReturnVehicle(c, customerId, vehicleId, returnDate).Ok?
    ensures returnDate.Valid?
    ensures var out := ReturnVehicle(c, customerId, vehicleId, returnDate).value;
            var cust := SearchCustomer(c, customerId).value;
            var v := SearchVehicle(c, vehicleId).value;
            var i := FindRental(cust.rentals, vehicleId).value;
            var late := returnDate.day - cust.rentals[i].dueDate;
            && out.daysLate == (if late > 0 then late else 0)
            && out.lateFee == out.daysLate * v.lateFee
            && out.bonusPoints == (if late > 0 then 0 else 5)
  {
  }

  /** The customer after a successful return on `returnDay`: the first
      rental of the vehicle is closed, the others keep their order, and 5
      points are earned when the return is not after the due date. */
  function AfterReturn(cust: Customer, vehicleId: string, returnDay: Day): Customer
    requires HasRentedVehicle(cust, vehicleId)
  {
    var i := FindRental(cust.rentals, vehicleId).value;
    var late := returnDay - cust.rentals[i].dueDate;
    cust.(rentals := cust.rentals[..i] + cust.rentals[i + 1..],
          loyaltyPoints := if late > 0 then cust.loyaltyPoints else cust.loyaltyPoints + TimelyReturnPoints)
  }

  /** What a successful return changes: the customer becomes
      `AfterReturn` of itself, the vehicle becomes available, and every
      other vehicle and customer is as before. */
  lemma ReturnEffect(c: Company, customerId: int, vehicleId: string, returnDate: DateText)
    requires ReturnVehicle(c, customerId, vehicleId, returnDate).Ok?
    ensures returnDate.Valid? && SearchCustomer(c, customerId).Some? && SearchVehicle(c, vehicleId).Some?
    ensures HasRentedVehicle(SearchCustomer(c, customerId).value, vehicleId)
    ensures var out := ReturnVehicle(c, customerId, vehicleId, returnDate).value;
            var cust := SearchCustomer(c, customerId).value;
            var v := SearchVehicle(c, vehicleId).value;
            && |out.company.fleet.items| == |c.fleet.items|
            && |out.company.roster.items| == |c.roster.items|
            && SearchVehicle(out.company, vehicleId) == Some(SetAvailability(v, true))
            && SearchCustomer(out.company, customerId) == Some(AfterReturn(cust, vehicleId, returnDate.day))
            && (forall id :: id != vehicleId ==> SearchVehicle(out.company, id) == SearchVehicle(c, id))
            && (forall id :: id != customerId ==> SearchCustomer(out.company, id) == SearchCustomer(c, id))
  {
    ReturnState(c, customerId, vehicleId, returnDate);
    var out := ReturnVehicle(c, customerId, vehicleId, returnDate).value;
    var ci := FindIndex(c.roster.items, CustomerKey, customerId).value;
    var vi := FindIndex(c.fleet.items, VehicleKey, vehicleId).value;
    assert out.company.roster.items[ci] == AfterReturn(c.roster.items[ci], vehicleId, returnDate.day);
    ReturnLookups(c, out.company, customerId, vehicleId, returnDate.day, ci, vi);
  }

  /** The state a successful return leaves, by position. */
  lemma ReturnState(c: Company, customerId: int, vehicleId: string, returnDate: DateText)
    requires ReturnVehicle(c, customerId, vehicleId, returnDate).Ok?
    ensures returnDate.Valid?
    ensures var out := ReturnVehicle(c, customerId, vehicleId, returnDate).value;
            var ci := FindIndex(c.roster.items, CustomerKey, customerId).value;
            var vi := FindIndex(c.fleet.items, VehicleKey, vehicleId).value;
            var cust := c.roster.items[ci];
            var v := c.fleet.items[vi];
            var i := FindRental(cust.rentals, vehicleId).value;
            var late := returnDate.day - cust.rentals[i].dueDate;
            && HasRentedVehicle(cust, vehicleId)
            && out.company.fleet == UpdateAt(c.fleet, vi, SetAvailability(v, true))
            && out.company.roster == UpdateAt(c.roster, ci, out.company.roster.items[ci])
            && out.company.roster.items[ci]
               == cust.(rentals := cust.rentals[..i] + cust.rentals[i + 1..],
                        loyaltyPoints := if late > 0 then cust.loyaltyPoints else cust.loyaltyPoints + 5)
  {
  }

  /** Lookups in a company where customer `ci` has returned vehicle `vi`. */
  lemma ReturnLookups(c: Company, out: Company, customerId: int, vehicleId: string, returnDay: Day, ci: nat, vi: nat)
    requires FindIndex(c.roster.items, CustomerKey, customerId) == Some(ci)
    requires FindIndex(c.fleet.items, VehicleKey, vehicleId) == Some(vi)
    requires HasRentedVehicle(c.roster.items[ci], vehicleId)
    requires out.fleet == UpdateAt(c.fleet, vi, SetAvailability(c.fleet.items[vi], true))
    requires out.roster == UpdateAt(c.roster, ci, AfterReturn(c.roster.items[ci], vehicleId, returnDay))
    ensures SearchCustomer(c, customerId).Some? && SearchVehicle(c, vehicleId).Some?
    ensures HasRentedVehicle(SearchCustomer(c, customerId).value, vehicleId)
    ensures var cust := SearchCustomer(c, customerId).value;
            var v := SearchVehicle(c, vehicleId).value;
            && |out.fleet.items| == |c.fleet.items|
            && |out.roster.items| == |c.roster.items|
            && SearchVehicle(out, vehicleId) == Some(SetAvailability(v, true))
            && SearchCustomer(out, customerId) == Some(AfterReturn(cust, vehicleId, returnDay))
            && (forall id :: id != vehicleId ==> SearchVehicle(out, id) == SearchVehicle(c, id))
            && (forall id :: id != customerId ==> SearchCustomer(out, id) == SearchCustomer(c, id))
  {
    UpdatedLookups(c, out, ci, vi, out.roster.items[ci], out.fleet.items[vi]);
  }

  /** Replacing one vehicle and one customer in place, each by an entry with
      the same identifier: lookups of those identifiers find the new
      entries, every other lookup is unchanged. */
  lemma UpdatedLookups(c: Company, out: Company, ci: nat, vi: nat, cust': Customer, v': Vehicle)
    requires ci < |c.roster.items| && vi < |c.fleet.items|
    requires FindIndex(c.roster.items, CustomerKey, cust'.id) == Some(ci)
    requires FindIndex(c.fleet.items, VehicleKey, v'.id) == Some(vi)
    requires out.fleet == UpdateAt(c.fleet, vi, v') && out.roster == UpdateAt(c.roster, ci, cust')
    ensures |out.fleet.items| == |c.fleet.items| && |out.roster.items| == |c.roster.items|
    ensures SearchVehicle(c, v'.id) == Some(c.fleet.items[vi]) && SearchCustomer(c, cust'.id) == Some(c.roster.items[ci])
    ensures SearchVehicle(out, v'.id) == Some(v') && SearchCustomer(out, cust'.id) == Some(cust')
    ensures forall id :: id != v'.id ==> SearchVehicle(out, id) == SearchVehicle(c, id)
    ensures forall id :: id != cust'.id ==> SearchCustomer(out, id) == SearchCustomer(c, id)
  {
    forall id ensures SearchVehicle(out, id) == if id == v'.id then Some(v') else SearchVehicle(c, id) {
      FindAfterUpdate(c.fleet, VehicleKey, vi, v', id);
    }
    forall id ensures SearchCustomer(out, id) == if id == cust'.id then Some(cust') else SearchCustomer(c, id) {
      FindAfterUpdate(c.roster, CustomerKey, ci, cust', id);
    }
  }
}
