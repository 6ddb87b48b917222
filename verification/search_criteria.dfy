/** The filter specifications of the fuzzy search.  An empty string, `-1`
    or `filterByAvailability == false` leaves a field unconstrained. */
module Criteria {

  datatype SearchCriteria = SearchCriteria(
    vehicleType: string,       // never consulted by the vehicle search
    make: string,
    model: string,
    maxDistanceMake: nat,      // edit tolerance for make
    maxDistanceModel: nat,     // edit tolerance for model
    passengerCapacity: int,    // compared for equality
    storageCapacity: int,      // compared for equality
    filterByAvailability: bool,
    availability: bool)

  datatype CustomerSearchCriteria = CustomerSearchCriteria(customerId: int, name: string, maxDistance: nat)

  /** The value of `-1` that marks an integer field as unset. */
  const Unset: int := -1

  /** The default constructor: every field a wildcard, make within two
      edits and model exact. */
  function DefaultSearchCriteria(): (sc: SearchCriteria)
    ensures sc.vehicleType == "" && sc.make == "" && sc.model == ""
    ensures sc.maxDistanceMake == 2 && sc.maxDistanceModel == 0
    ensures sc.passengerCapacity == Unset && sc.storageCapacity == Unset
    ensures !sc.filterByAvailability && !sc.availability
  {
    SearchCriteria("", "", "", 2, 0, -1, -1, false, false)
  }

  /** The default customer criteria: any ID, any name, names within two edits. */
  function DefaultCustomerSearchCriteria(): (cc: CustomerSearchCriteria)
    ensures cc.customerId == Unset && cc.name == "" && cc.maxDistance == 2
  {
    CustomerSearchCriteria(-1, "", 2)
  }
}
