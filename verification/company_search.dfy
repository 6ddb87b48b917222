/** The fuzzy searches of the rental workflow: a vehicle matches when every
    criterion that is set holds (make and model within their edit tolerance,
    passengers and storage equal, availability equal when filtered), and a
    customer when the identifier is equal and the name within tolerance.
    The criterion `vehicleType` is never looked at. */
module Search {
  import opened EditDistance
  import opened Criteria
  import opened Vehicles
  import opened Customers
  import opened Repositories
  import opened RentalCompany

  /** Whether `v` passes every set criterion of `sc`. */
  predicate VehicleMatches(sc: SearchCriteria, v: Vehicle) {
    && (sc.make == "" || Distance(v.make, sc.make) <= sc.maxDistanceMake)
    && (sc.model == "" || Distance(v.model, sc.model) <= sc.maxDistanceModel)
    && (sc.passengerCapacity == Unset || v.passengers == sc.passengerCapacity)
    && (sc.storageCapacity == Unset || v.capacity == sc.storageCapacity)
    && (!sc.filterByAvailability || v.availability == sc.availability)
  }

  /** Whether `cust` passes every set criterion of `cc`. */
  predicate CustomerMatches(cc: CustomerSearchCriteria, cust: Customer) {
    && (cc.customerId == Unset || cust.id == cc.customerId)
    && (cc.name == "" || Distance(cust.name, cc.name) <= cc.maxDistance)
  }

  /** `VehicleMatches` for fixed criteria, as the predicate `searchItems` takes. */
  function VehicleFilter(sc: SearchCriteria): Vehicle -> bool {
    v => VehicleMatches(sc, v)
  }

  /** `CustomerMatches` for fixed criteria. */
  function CustomerFilter(cc: CustomerSearchCriteria): Customer -> bool {
    x => CustomerMatches(cc, x)
  }

  /** The reference answer of a vehicle search: the generic repository
      filter with `VehicleMatches`. */
  function VehicleResults(c: Company, sc: SearchCriteria): seq<Vehicle> {
    SearchItems(c.fleet, VehicleFilter(sc))
  }

  /** The reference answer of a customer search. */
  function CustomerResults(c: Company, cc: CustomerSearchCriteria): seq<Customer> {
    SearchItems(c.roster, CustomerFilter(cc))
  }

  /** The body of the `searchVehicles` loop for one vehicle: each set
      criterion may clear `matches`. */
  method CheckVehicle(sc: SearchCriteria, v: Vehicle) returns (matches: bool)
    ensures matches <==> VehicleMatches(sc, v)
  {
    matches := true;
    if sc.make != "" {
      var d := LevenshteinDistance(v.make, sc.make);
      if d > sc.maxDistanceMake { matches := false; }
    }
    if sc.model != "" {
      var d := LevenshteinDistance(v.model, sc.model);
      if d > sc.maxDistanceModel { matches := false; }
    }
    if sc.passengerCapacity != Unset && v.passengers != sc.passengerCapacity { matches := false; }
    if sc.storageCapacity != Unset && v.capacity != sc.storageCapacity { matches := false; }
    if sc.filterByAvailability && v.availability != sc.availability { matches := false; }
  }

  /** The body of the `searchCustomers` loop for one customer. */
  method CheckCustomer(cc: CustomerSearchCriteria, cust: Customer) returns (matches: bool)
    ensures matches <==> CustomerMatches(cc, cust)
  {
    matches := true;
    if cc.customerId != Unset && cust.id != cc.customerId { matches := false; }
    if cc.name != "" {
      var d := LevenshteinDistance(cust.name, cc.name);
      if d > cc.maxDistance { matches := false; }
    }
  }

  /** `searchVehicles`: walk the fleet in order and keep each vehicle that
      passes every set criterion. */
  method SearchVehicles(c: Company, sc: SearchCriteria) returns (results: seq<Vehicle>)
    ensures results == VehicleResults(c, sc)
    ensures forall v :: v in results <==> v in c.fleet.items && VehicleMatches(sc, v)
    ensures IsSubsequence(results, c.fleet.items)
  {
    var vehicles := c.fleet.items;
    results := [];
    var i := 0;
    while i < |vehicles|
      invariant i <= |vehicles|
      invariant results == Filter(vehicles[..i], VehicleFilter(sc))
    {
      var matches := CheckVehicle(sc, vehicles[i]);
      FilterPrefixStep(vehicles, i, VehicleFilter(sc));
      if matches {
        results := results + [vehicles[i]];
      }
      i := i + 1;
    }
    assert vehicles[..i] == vehicles;
  }

  /** `searchCustomers`: walk the roster in order and keep each customer
      that passes every set criterion. */
  method SearchCustomers(c: Company, cc: CustomerSearchCriteria) returns (results: seq<Customer>)
    ensures results == CustomerResults(c, cc)
    ensures forall x :: x in results <==> x in c.roster.items && CustomerMatches(cc, x)
    ensures IsSubsequence(results, c.roster.items)
  {
    var customers := c.roster.items;
    results := [];
    var i := 0;
    while i < |customers|
      invariant i <= |customers|
      invariant results == Filter(customers[..i], CustomerFilter(cc))
    {
      var matches := CheckCustomer(cc, customers[i]);
      FilterPrefixStep(customers, i, CustomerFilter(cc));
      if matches {
        results := results + [customers[i]];
      }
      i := i + 1;
    }
    assert customers[..i] == customers;
  }

  /** The vehicle search never consults the type: any `vehicleType` gives
      the same results. */
  lemma TypeIgnored(c: Company, sc: SearchCriteria, t: string)
    ensures VehicleResults(c, sc.(vehicleType := t)) == VehicleResults(c, sc)
  {
    var f := VehicleFilter(sc.(vehicleType := t));
    var g := VehicleFilter(sc);
    forall v | v in c.fleet.items ensures f(v) == g(v) {}
    FilterCongruent(c.fleet.items, f, g);
  }

  /** Default criteria leave every field a wildcard: the whole fleet, in
      order. */
  lemma DefaultFindsAllVehicles(c: Company)
    ensures VehicleResults(c, DefaultSearchCriteria()) == c.fleet.items
  {
    FilterKeepsAll(c.fleet.items, VehicleFilter(DefaultSearchCriteria()));
  }

  /** Default customer criteria select the whole roster, in order. */
  lemma DefaultFindsAllCustomers(c: Company)
    ensures CustomerResults(c, DefaultCustomerSearchCriteria()) == c.roster.items
  {
    FilterKeepsAll(c.roster.items, CustomerFilter(DefaultCustomerSearchCriteria()));
  }

  /** The availability flag is consulted only when filtering by
      availability: otherwise `availability` makes no difference. */
  lemma AvailabilityOnlyWhenFiltered(c: Company, sc: SearchCriteria, b: bool)
    requires !sc.filterByAvailability
    ensures VehicleResults(c, sc.(availability := b)) == VehicleResults(c, sc)
  {
    var f := VehicleFilter(sc.(availability := b));
    var g := VehicleFilter(sc);
    forall v | v in c.fleet.items ensures f(v) == g(v) {}
    FilterCongruent(c.fleet.items, f, g);
  }

  /** With the default model tolerance of zero, a set model matches only
      vehicles whose model is exactly that string. */
  lemma ZeroToleranceIsExact(sc: SearchCriteria, v: Vehicle)
    requires sc.model != "" && sc.maxDistanceModel == 0
    ensures VehicleMatches(sc, v) ==> v.model == sc.model
  {
    DistanceZeroIff(v.model, sc.model);
  }

  /** With every criterion set and both tolerances zero, a vehicle matches
      exactly when its make, model, passengers, storage and availability
      are the ones asked for. */
  lemma ExactCriteriaMatchExactly(sc: SearchCriteria, v: Vehicle)
    requires sc.make != "" && sc.model != "" && sc.maxDistanceMake == 0 && sc.maxDistanceModel == 0
    requires sc.passengerCapacity != Unset && sc.storageCapacity != Unset && sc.filterByAvailability
    ensures VehicleMatches(sc, v) <==>
      && v.make == sc.make && v.model == sc.model
      && v.passengers == sc.passengerCapacity && v.capacity == sc.storageCapacity
      && v.availability == sc.availability
  {
    DistanceZeroIff(v.make, sc.make);
    DistanceZeroIff(v.model, sc.model);
  }

  /** With the identifier and a name set and a name tolerance of zero, a
      customer matches exactly when both are equal. */
  lemma ExactCustomerCriteriaMatchExactly(cc: CustomerSearchCriteria, cust: Customer)
    requires cc.customerId != Unset && cc.name != "" && cc.maxDistance == 0
    ensures CustomerMatches(cc, cust) <==> cust.id == cc.customerId && cust.name == cc.name
  {
    DistanceZeroIff(cust.name, cc.name);
  }

  /** Passenger and storage criteria are equalities, not minimums: a vehicle
      with more seats than asked for is not found. */
  lemma CapacityIsEquality(sc: SearchCriteria, v: Vehicle)
    requires sc.passengerCapacity != Unset && v.passengers > sc.passengerCapacity
    ensures !VehicleMatches(sc, v)
  {
  }

  /** With unique identifiers, a search by identifier alone finds the one
      customer `searchCustomer` finds, or nobody. */
  lemma SearchByIdIsLookup(c: Company, id: int, tolerance: nat)
    requires UniqueKeys(c.roster.items, CustomerKey) && id != Unset
    ensures CustomerResults(c, CustomerSearchCriteria(id, "", tolerance))
         == if SearchCustomer(c, id).Some? then [SearchCustomer(c, id).value] else []
  {
    var cc := CustomerSearchCriteria(id, "", tolerance);
    var r := CustomerResults(c, cc);
    FilterUniqueKeys(c.roster.items, CustomerFilter(cc), CustomerKey);
    forall i | 0 <= i < |r| ensures CustomerKey(r[i]) == id {
      assert r[i] in r;
    }
    SameKeyAtMostOne(r, CustomerKey, id);
    if SearchCustomer(c, id).Some? {
      assert SearchCustomer(c, id).value in r;
    }
  }
}
