/** The vehicle hierarchy: an abstract vehicle and its four variants.
    The variant is a tag on the vehicle; its late fee and base rate are
    per-variant constants.  Money is in whole cents. */
module Vehicles {
  import opened Outcomes

  datatype Kind = Car | Van | Minibus | SUV

  /** Late fee per day, in cents, that each variant's constructor sets. */
  function LateFeeOf(k: Kind): int {
    match k
    case Car => 1000
    case Van => 2000
    case Minibus => 1200
    case SUV => 1500
  }

  /** Base rental rate per day, in cents (`getBaseRentalRate`). */
  function BaseRateOf(k: Kind): int {
    match k
    case Car => 5000
    case Van => 10000
    case Minibus => 6500
    case SUV => 8000
  }

  /** The type tag `getType` answers and the vehicles file stores. */
  function TypeTag(k: Kind): string {
    match k
    case Car => "Car"
    case Van => "Van"
    case Minibus => "Minibus"
    case SUV => "SUV"
  }

  /** The known-types check of the loader: a token names a variant exactly
      when it is one of the four tags. */
  function ParseTag(s: string): (o: Option<Kind>)
    ensures o.Some? ==> TypeTag(o.value) == s
    ensures forall k :: TypeTag(k) == s ==> o == Some(k)
  {
    if s == "Car" then Some(Car)
    else if s == "Van" then Some(Van)
    else if s == "Minibus" then Some(Minibus)
    else if s == "SUV" then Some(SUV)
    else None
  }

  datatype Vehicle = Vehicle(
    kind: Kind,
    id: string,
    make: string,
    model: string,
    passengers: int,
    capacity: int,
    availability: bool,
    lateFee: int)

  function BaseRentalRate(v: Vehicle): int {
    BaseRateOf(v.kind)
  }

  /** The identity of a vehicle: everything that has no setter. */
  datatype Identity = Identity(kind: Kind, id: string, make: string, model: string, passengers: int, capacity: int)

  function IdentityOf(v: Vehicle): Identity {
    Identity(v.kind, v.id, v.make, v.model, v.passengers, v.capacity)
  }

  /** The base-class constructor: every argument is stored as given and the
      late fee starts at zero. */
  function BaseVehicle(kind: Kind, id: string, make: string, model: string,
                       passengers: int, storage: int, avail: bool): (v: Vehicle)
    ensures IdentityOf(v) == Identity(kind, id, make, model, passengers, storage)
    ensures v.availability == avail && v.lateFee == 0
  {
    Vehicle(kind, id, make, model, passengers, storage, avail, 0)
  }

  /** `setAvailability`: only the availability changes. */
  function SetAvailability(v: Vehicle, avail: bool): (v': Vehicle)
    ensures v'.availability == avail
    ensures IdentityOf(v') == IdentityOf(v) && v'.lateFee == v.lateFee
  {
    v.(availability := avail)
  }

  /** `setLateFee`: only the late fee changes. */
  function SetLateFee(v: Vehicle, fee: int): (v': Vehicle)
    ensures v'.lateFee == fee
    ensures IdentityOf(v') == IdentityOf(v) && v'.availability == v.availability
  {
    v.(lateFee := fee)
  }

  /** A variant constructor: the base constructor followed by `setLateFee`
      with the variant's fee. */
  function NewVehicle(kind: Kind, id: string, make: string, model: string,
                      passengers: int, storage: int, avail: bool): Vehicle
  {
    SetLateFee(BaseVehicle(kind, id, make, model, passengers, storage, avail), LateFeeOf(kind))
  }

  function NewCar(id: string, make: string, model: string, passengers: int, storage: int, avail: bool): (v: Vehicle)
    ensures IdentityOf(v) == Identity(Car, id, make, model, passengers, storage) && v.availability == avail
    ensures v.lateFee == 1000 && BaseRentalRate(v) == 5000 && TypeTag(v.kind) == "Car"
  {
    NewVehicle(Car, id, make, model, passengers, storage, avail)
  }

  function NewVan(id: string, make: string, model: string, passengers: int, storage: int, avail: bool): (v: Vehicle)
    ensures IdentityOf(v) == Identity(Van, id, make, model, passengers, storage) && v.availability == avail
    ensures v.lateFee == 2000 && BaseRentalRate(v) == 10000 && TypeTag(v.kind) == "Van"
  {
    NewVehicle(Van, id, make, model, passengers, storage, avail)
  }

  function NewMinibus(id: string, make: string, model: string, passengers: int, storage: int, avail: bool): (v: Vehicle)
    ensures IdentityOf(v) == Identity(Minibus, id, make, model, passengers, storage) && v.availability == avail
    ensures v.lateFee == 1200 && BaseRentalRate(v) == 6500 && TypeTag(v.kind) == "Minibus"
  {
    NewVehicle(Minibus, id, make, model, passengers, storage, avail)
  }

  function NewSuv(id: string, make: string, model: string, passengers: int, storage: int, avail: bool): (v: Vehicle)
    ensures IdentityOf(v) == Identity(SUV, id, make, model, passengers, storage) && v.availability == avail
    ensures v.lateFee == 1500 && BaseRentalRate(v) == 8000 && TypeTag(v.kind) == "SUV"
  {
    NewVehicle(SUV, id, make, model, passengers, storage, avail)
  }

  /** The two mutations a vehicle admits after construction. */
  datatype Mutation = SetAvail(avail: bool) | SetFee(fee: int)

  function Apply(v: Vehicle, m: Mutation): Vehicle {
    match m
    case SetAvail(b) => SetAvailability(v, b)
    case SetFee(f) => SetLateFee(v, f)
  }

  function ApplyAll(v: Vehicle, ms: seq<Mutation>): Vehicle
    decreases |ms|
  {
    if |ms| == 0 then v else ApplyAll(Apply(v, ms[0]), ms[1..])
  }

  /** Identifier, make, model, capacities and variant are fixed for the
      vehicle's lifetime: no sequence of setter calls changes them, and the
      base rate, which depends only on the variant, stays the same. */
  lemma {:induction false} IdentityFixed(v: Vehicle, ms: seq<Mutation>)
    ensures IdentityOf(ApplyAll(v, ms)) == IdentityOf(v)
    ensures BaseRentalRate(ApplyAll(v, ms)) == BaseRentalRate(v)
    decreases |ms|
  {
    if |ms| > 0 {
      IdentityFixed(Apply(v, ms[0]), ms[1..]);
    }
  }
}
