/** Customers, their active rentals and their loyalty points. */
module Customers {
  import opened Outcomes
  import opened Dates

  /** An active rental.  The source keeps a shared pointer to the vehicle;
      here the rental keeps the vehicle's identifier, and the fleet owns the
      vehicle itself. */
  datatype RentalInfo = RentalInfo(vehicleId: string, rentDate: Day, dueDate: Day)

  datatype Customer = Customer(id: int, name: string, rentals: seq<RentalInfo>, loyaltyPoints: int)

  /** Points a customer spends on one loyalty discount. */
  const DiscountThreshold: int := 100

  /** The constructor: no points and no rentals. */
  function NewCustomer(id: int, name: string): (c: Customer)
    ensures c.id == id && c.name == name
    ensures c.loyaltyPoints == 0 && |c.rentals| == 0
  {
    Customer(id, name, [], 0)
  }

  /** `addRental`: append one rental at the end; nothing else changes. */
  function AddRental(c: Customer, rental: RentalInfo): (c': Customer)
    ensures |c'.rentals| == |c.rentals| + 1 && c'.rentals[..|c.rentals|] == c.rentals
    ensures c'.rentals[|c.rentals|] == rental
    ensures c'.id == c.id && c'.name == c.name && c'.loyaltyPoints == c.loyaltyPoints
  {
    c.(rentals := c.rentals + [rental])
  }

  /** `rentVehicle`: record a rental of `vehicleId`; no duplicate check. */
  function RentVehicle(c: Customer, vehicleId: string, rentDate: Day, dueDate: Day): (c': Customer)
    ensures |c'.rentals| == |c.rentals| + 1 && c'.rentals[..|c.rentals|] == c.rentals
    ensures c'.rentals[|c.rentals|] == RentalInfo(vehicleId, rentDate, dueDate)
    ensures c'.id == c.id && c'.name == c.name && c'.loyaltyPoints == c.loyaltyPoints
  {
    AddRental(c, RentalInfo(vehicleId, rentDate, dueDate))
  }

  /** Position of the first rental of `vehicleId`. */
  function FindRental(rentals: seq<RentalInfo>, vehicleId: string): (o: Option<nat>)
    ensures o.Some? ==> o.value < |rentals| && rentals[o.value].vehicleId == vehicleId
    ensures o.Some? ==> forall j :: 0 <= j < o.value ==> rentals[j].vehicleId != vehicleId
    ensures o.None? <==> forall j :: 0 <= j < |rentals| ==> rentals[j].vehicleId != vehicleId
  {
    if |rentals| == 0 then None
    else if rentals[0].vehicleId == vehicleId then Some(0)
    else match FindRental(rentals[1..], vehicleId)
      case None => None
      case Some(i) => Some(i + 1)
  }

  /** `hasRentedVehicle`: some active rental is of that vehicle. */
  predicate HasRentedVehicle(c: Customer, vehicleId: string)
    ensures HasRentedVehicle(c, vehicleId) <==>
      exists i :: 0 <= i < |c.rentals| && c.rentals[i].vehicleId == vehicleId
  {
    FindRental(c.rentals, vehicleId).Some?
  }

  /** A customer after a return, and the days the return was late. */
  datatype Returned = Returned(customer: Customer, daysLate: nat)

  /** `returnVehicle`: drop the first rental of the vehicle and report how
      late it came back; an early return counts as zero days late.  The day
      difference is taken before the rental is erased, so an unparseable
      return date leaves the rentals as they were. */
  function ReturnVehicle(c: Customer, vehicleId: string, returnDate: DateText): (r: Result<Returned>)
    ensures !HasRentedVehicle(c, vehicleId) ==> r == Err(RentalNotFound)
    ensures HasRentedVehicle(c, vehicleId) && returnDate.Unparseable? ==> r == Err(InvalidDate)
    ensures r.Ok? <==> HasRentedVehicle(c, vehicleId) && returnDate.Valid?
    ensures r.Ok? ==> var i := FindRental(c.rentals, vehicleId).value;
        && r.value.customer == c.(rentals := c.rentals[..i] + c.rentals[i + 1..])
        && r.value.daysLate == (if returnDate.day > c.rentals[i].dueDate then returnDate.day - c.rentals[i].dueDate else 0)
  {
    match FindRental(c.rentals, vehicleId)
    case None => Err(RentalNotFound)
    case Some(i) =>
      match DaysDifference(c.rentals[i].dueDate, returnDate)
      case Err(e) => Err(e)
      case Ok(late) =>
        Ok(Returned(c.(rentals := c.rentals[..i] + c.rentals[i + 1..]), if late > 0 then late else 0))
  }

  /** A customer after a discount attempt, and whether it was granted. */
  datatype Discounted = Discounted(customer: Customer, applied: bool)

  /** `applyLoyaltyDiscount`: with at least 100 points, spend exactly 100. */
  function ApplyLoyaltyDiscount(c: Customer): (r: Discounted)
    ensures r.applied <==> c.loyaltyPoints >= DiscountThreshold
    ensures r.applied ==> r.customer == c.(loyaltyPoints := c.loyaltyPoints - DiscountThreshold)
    ensures !r.applied ==> r.customer == c
  {
    if c.loyaltyPoints >= DiscountThreshold then
      Discounted(c.(loyaltyPoints := c.loyaltyPoints - DiscountThreshold), true)
    else
      Discounted(c, false)
  }

  /** `addLoyaltyPoints`: add `points`, which may be negative; there is no
      floor at zero. */
  function AddLoyaltyPoints(c: Customer, points: int): (c': Customer)
    ensures c'.loyaltyPoints - c.loyaltyPoints == points
    ensures c'.id == c.id && c'.name == c.name && c'.rentals == c.rentals
  {
    c.(loyaltyPoints := c.loyaltyPoints + points)
  }

  /** `setLoyaltyPoints`: overwrite the balance. */
  function SetLoyaltyPoints(c: Customer, points: int): (c': Customer)
    ensures c'.loyaltyPoints == points
    ensures c'.id == c.id && c'.name == c.name && c'.rentals == c.rentals
  {
    c.(loyaltyPoints := points)
  }

  /** Renting a vehicle the customer does not hold and then returning it
      gives the customer back unchanged, with the days late measured from the
      due date. */
  lemma RentThenReturn(c: Customer, vehicleId: string, rentDate: Day, dueDate: Day, ret: Day)
    requires !HasRentedVehicle(c, vehicleId)
    ensures ReturnVehicle(RentVehicle(c, vehicleId, rentDate, dueDate), vehicleId, Valid(ret))
         == Ok(Returned(c, if ret > dueDate then ret - dueDate else 0))
  {
    var c' := RentVehicle(c, vehicleId, rentDate, dueDate);
    var n := |c.rentals|;
    assert c'.rentals[n].vehicleId == vehicleId;
    assert FindRental(c'.rentals, vehicleId) == Some(n);
    assert c'.rentals[..n] + c'.rentals[n + 1..] == c.rentals;
  }

  /** Added points accumulate: two additions are one addition of the sum, and
      a negative amount can take the balance below zero. */
  lemma AddLoyaltyPointsComposes(c: Customer, a: int, b: int)
    ensures AddLoyaltyPoints(AddLoyaltyPoints(c, a), b) == AddLoyaltyPoints(c, a + b)
    ensures c.loyaltyPoints + a < 0 ==> AddLoyaltyPoints(c, a).loyaltyPoints < 0
  {
  }
}
