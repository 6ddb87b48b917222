# Vehicle rental bookkeeper — a Dafny model

This project models the core of a small vehicle-rental company written in C++:

- the fleet and the customer roster, each a repository of records;
- the four vehicle variants (Car, Van, Minibus, SUV) with their daily rates
  and late fees;
- customers with loyalty points and a list of active rentals;
- the rental workflow: add and remove, rent and return, with a fixed
  seven-day period, a 30% loyalty discount at 100 points, 10 points per
  rental, and 5 bonus points for a timely return;
- fuzzy search over vehicles and customers by Levenshtein distance;
- the two text files the company is saved to and loaded from.

Modelling choices:

- Money is in integer cents. A day's rate of 50.0 is 5000.
- Dates are integer day numbers. A date a user types is a `DateText`: either
  a valid day or unparseable, so the "invalid date" error of the day
  difference is kept.
- The current date is a parameter `today`.
- Every operation that throws in the source returns a `Result` whose error
  names the `throw`.
- Loading and saving work on the files' contents as strings.
  - Reading a line is modelled character by character: `std::getline`, and
    `>>` into a word, an `int` or `std::quoted`.
  - So is writing one: `<<` of an `int` and `std::quoted`.
- The repositories share one generic `Repository<T>` with a key function.
  The source has two identical template specialisations.
- A `shared_ptr` shared between the fleet and a rental is modelled by the
  vehicle's identifier.

Modules, one per part of the program:

| file | module | what |
|---|---|---|
| `outcomes.dfy` | `Outcomes` | `Option`, `Result` and the error names |
| `edit_distance.dfy` | `EditDistance` | the recursive edit distance and the DP that computes it |
| `repository.dfy` | `Repositories` | the repository and `searchItems` |
| `vehicle.dfy` | `Vehicles` | the vehicle record and its four variants |
| `customer.dfy` | `Customers` | the customer record and its rentals |
| `dates.dfy` | `Dates` | day arithmetic |
| `search_criteria.dfy` | `Criteria` | the two criteria records and their defaults |
| `company.dfy` | `RentalCompany` | the workflow |
| `company_search.dfy` | `Search` | the two search loops |
| `consistency.dfy` | `Consistency` | the bookkeeping invariant the workflow keeps |
| `stream.dfy` | `Streams` | line and token reading and writing |
| `line_codec.dfy` | `LineCodec` | one vehicle line and one customer line |
| `persistence.dfy` | `Persistence` | whole-file save and load |

The bookkeeping invariant (`Consistency.Consistent`) is not spelled out in
the source. It is what the rent and return code keeps:

- vehicle and customer identifiers are unique;
- every active rental names a vehicle of the fleet;
- an available vehicle is held by no customer, and an unavailable one by
  exactly one.

Where the header comments and the code disagree, the model follows the code:

- The passenger and storage criteria are equality tests, although
  `SearchCriteria.h` calls them "Minimum".
- `addLoyaltyPoints` has no floor.
- A Minibus costs 65.0 a day.
- A vehicles-file line whose first word is not a known type is read as a
  Car whose identifier is that word.

Behaviour as written that a caller may not expect, modelled faithfully:

- The customers-file loader does not check availability. A customers file
  naming one vehicle twice gives two rentals of it (`Persistence.AttachOne`).
- `saveToFile` opens, and so empties, both files before it checks either.
  When the vehicles file cannot be opened, the customers file is left empty.
- A load stopped by a duplicate identifier keeps what it had added so far.
- Loyalty points too large for an `int` load as the largest `int`. The stream is then put back, so the same digits are also read as a vehicle identifier (`LineCodec.PointsOverflow`).
- Removing a rented vehicle, or a customer who still holds vehicles, is not
  refused. Both break the bookkeeping invariant, so the preservation lemmas
  require an available vehicle or a customer without rentals.

## Model

| member | source | states |
|---|---|---|
| EditDistance.LevenshteinDistance | Utils.cpp:7-21 | the table-filling loops return exactly the recursive edit distance of the two strings; the invariants state that each filled cell holds the distance of the two prefixes |
| EditDistance.PrefixStep | Utils.cpp:15-19 | the distance of two non-empty prefixes is the cheapest of a deletion, an insertion, or a match/substitution of the last characters, which is the recurrence each inner-loop cell applies |
| EditDistance.DistanceBounds | Utils.cpp:11-19 | the distance is at least the difference of the lengths and at most the longer length; against an empty string it is the other string's length, as the first row and column are filled |
| EditDistance.DistanceZeroIff | Utils.cpp:7-21 | the distance is zero exactly when the strings are equal |
| EditDistance.DistanceSymmetric | Utils.cpp:7-21 | swapping the two strings does not change the distance |
| EditDistance.Min3 | Utils.cpp:17-19 | the minimum of three costs is one of them and no larger than any |
| Repositories.Add | Repository.h:132-134 | adding appends: the old items are an unchanged prefix and the new item is last, with no identifier check |
| Repositories.AddThenFind | Repository.h:20-45 | after an add, a lookup answers the earlier item when its identifier was already present (a duplicate stays shadowed), the new item when it was absent and matches, and nothing otherwise |
| Repositories.FindIndex | Repository.h:151-157 | the position of the first item with the identifier; none exactly when no item has it |
| Repositories.FindById | Repository.h:95-101 | the lookup returns an item with the identifier that no earlier item shares, and nothing exactly when no item has the identifier |
| Repositories.FindIndexPrefix | Repository.h:151-157 | a lookup in two concatenated sequences answers the first sequence's match if any, else the second's shifted by the first's length |
| Repositories.FindIndexSameKeys | Repository.h:39-45 | a lookup depends only on the items' identifiers |
| Repositories.SearchItems | Utils.h:52-60 | the result holds exactly the items that satisfy the predicate, each as often as in the repository, in repository order |
| Repositories.FilterKeeps | Utils.h:53-58 | the filtering loop keeps an item exactly when the predicate holds, with its multiplicity, as a subsequence |
| Repositories.FilterCounts | Utils.h:53-58 | each item occurs in the result as often as in the input when it passes, and not at all otherwise |
| Repositories.FilterSubsequence | Utils.h:53-58 | the result is a subsequence of the input |
| Repositories.FilterSnoc | Utils.h:54-58 | one more item at the end grows the result by that item exactly when it passes |
| Repositories.FilterPrefixStep | Utils.h:54-58 | one iteration of the loop on the prefix seen so far extends the result by the item exactly when it passes |
| Repositories.FilterCongruent | Utils.h:52-60 | two predicates that agree on every item select the same result |
| Repositories.FilterKeepsAll | Utils.h:52-60 | when every item passes, the result is the whole repository |
| Repositories.FilterExtremes | Utils.h:52-60 | the always-true predicate keeps everything and the always-false one nothing |
| Repositories.SearchItemsExtremes | Utils.h:52-60 | a search with an always-true predicate answers every item in order, and one with an always-false predicate answers nothing |
| Repositories.FilterUniqueKeys | Utils.h:52-60 | filtering a repository with unique identifiers keeps them unique |
| Repositories.FindAfterFilter | Utils.h:52-60 | with unique identifiers, filtering does not change the lookup of an identifier whose item passes |
| Repositories.Remove | Repository.h:141-143 | every occurrence of the item is erased, every other item keeps its multiplicity and relative order |
| Repositories.RemoveIsFilter | Repository.h:141-143 | removal is the search for everything but the item, and removing an absent item changes nothing |
| Repositories.RemoveForgets | Repository.h:141-143 | with unique identifiers, the removed item's identifier is no longer found and every other lookup is unchanged |
| Repositories.RemoveUniqueKeys | Repository.h:141-143 | removal keeps identifiers unique |
| Repositories.Clear | Repository.h:171-173 | clearing leaves no item |
| Repositories.UpdateAt | RentalCompany.cpp:232-233 | mutating a held record in place replaces the one position and leaves every other position as it was |
| Repositories.FindAfterUpdate | RentalCompany.cpp:232-233 | replacing the first record of an identifier by one with the same identifier makes lookups of that identifier answer the new record and leaves other lookups unchanged |
| Vehicles.ParseTag | RentalCompany.cpp:320-324 | a word names a variant exactly when it is one of the four type tags, and then it is that variant's tag |
| Vehicles.BaseVehicle | Vehicle.cpp:25-27 | the base constructor stores every argument as given and starts the late fee at zero |
| Vehicles.SetAvailability | Vehicle.cpp:90 | availability becomes the argument; identity and late fee are unchanged |
| Vehicles.SetLateFee | Vehicle.cpp:98 | the late fee becomes the argument; identity and availability are unchanged |
| Vehicles.NewCar | Car.cpp:24-39 | a Car keeps the given identity and availability, charges a late fee of 10.00 and a base rate of 50.00 a day, and is tagged "Car" |
| Vehicles.NewVan | Van.cpp:25-38 | a Van keeps the given identity and availability, charges a late fee of 20.00 and a base rate of 100.00 a day, and is tagged "Van" |
| Vehicles.NewMinibus | Minibus.cpp:24-38 | a Minibus keeps the given identity and availability, charges a late fee of 12.00 and a base rate of 65.00 a day, and is tagged "Minibus" |
| Vehicles.NewSuv | SUV.cpp:15-28 | an SUV keeps the given identity and availability, charges a late fee of 15.00 and a base rate of 80.00 a day, and is tagged "SUV" |
| Vehicles.IdentityFixed | Vehicle.cpp:37-98 | no sequence of setter calls changes a vehicle's variant, identifier, make, model, passengers or capacity, nor its base rate |
| Customers.NewCustomer | Customer.cpp:8 | a new customer has the given identifier and name, no points and no rentals |
| Customers.AddRental | Customer.cpp:86-88 | the rental is appended after the existing ones; identifier, name and points are unchanged |
| Customers.RentVehicle | Customer.cpp:20-23 | a rental of the vehicle with the two dates is appended; nothing else changes |
| Customers.FindRental | Customer.cpp:27-28 | the position of the first rental of the vehicle, or none exactly when no rental names it |
| Customers.HasRentedVehicle | Customer.cpp:59-62 | true exactly when some rental names the vehicle |
| Customers.ReturnVehicle | Customer.cpp:26-37 | not rented gives the not-found error; rented with an unparseable date gives the invalid-date error; otherwise only the first rental of the vehicle is erased, the others keep their order, and the days late are the positive part of return minus due |
| Customers.ApplyLoyaltyDiscount | Customer.cpp:65-72 | the discount applies exactly when the points reach 100, and then takes 100 points; otherwise nothing changes |
| Customers.AddLoyaltyPoints | Customer.cpp:75-78 | the points grow by exactly the argument; nothing else changes |
| Customers.SetLoyaltyPoints | Customer.cpp:81-83 | the points become the argument; nothing else changes |
| Customers.RentThenReturn | Customer.cpp:20-37 | renting a vehicle the customer did not hold and returning it on a valid day gives back the same customer, late by the positive part of return minus due |
| Customers.AddLoyaltyPointsComposes | Customer.cpp:75-78 | two additions equal one of their sum, and an addition can leave the points negative |
| Dates.AddDays | DateUtils.cpp:16-27 | the result is exactly the given number of days later |
| Dates.DaysDifference | DateUtils.cpp:64-77 | succeeds exactly when the return date parses, else the invalid-date error; due day plus the result is the return day |
| Criteria.DefaultSearchCriteria | SearchCriteria.h:20-24 | no type, make or model; make tolerance 2, model tolerance 0; both capacities unset; no availability filter |
| Criteria.DefaultCustomerSearchCriteria | SearchCriteria.h:34-35 | identifier unset, no name, name tolerance 2 |
| RentalCompany.AddVehicle | RentalCompany.cpp:33-38 | fails with the duplicate error exactly when the identifier is already in the fleet; otherwise appends, the new vehicle is found, and every other lookup and the roster are unchanged |
| RentalCompany.AddedVehicleLookups | RentalCompany.cpp:34-37 | after appending, a lookup answers the old vehicle if one was found, else the new one when its identifier matches, else nothing |
| RentalCompany.RemoveVehicle | RentalCompany.cpp:47-54 | fails with not-found exactly when no vehicle has the identifier; otherwise the found vehicle is gone, the others keep their multiplicity and order, and the roster is unchanged |
| RentalCompany.AddCustomer | RentalCompany.cpp:63-68 | fails with the duplicate error exactly when the identifier is already in the roster; otherwise appends, the new customer is found, and every other lookup and the fleet are unchanged |
| RentalCompany.AddedCustomerLookups | RentalCompany.cpp:64-67 | after appending, a lookup answers the old customer if one was found, else the new one when its identifier matches, else nothing |
| RentalCompany.SearchVehicle | RentalCompany.cpp:142-144 | answers a fleet vehicle with the identifier, and nothing exactly when no fleet vehicle has it |
| RentalCompany.SearchCustomer | RentalCompany.cpp:159-162 | answers a roster customer with the identifier, and nothing exactly when no customer has it |
| RentalCompany.CalculateRentalCost | RentalCompany.cpp:175-178 | the cost is the number of days times 50.00 for a Car, 100.00 for a Van, 65.00 for a Minibus and 80.00 for an SUV |
| RentalCompany.RemoveCustomer | RentalCompany.cpp:77-84 | fails with not-found exactly when no customer has the identifier; otherwise the found customer is gone, the others keep their multiplicity and order, and the fleet is unchanged |
| RentalCompany.ClearData | RentalCompany.cpp:538-541 | both repositories are empty afterwards |
| RentalCompany.RentVehicle | RentalCompany.cpp:194-239 | the guards run in order (customer not found, vehicle not found, vehicle unavailable), and a rental succeeds exactly when none fires |
| RentalCompany.DiscountIsExact | RentalCompany.cpp:210-222 | 30% of a seven-day cost is a whole number of cents for every variant |
| RentalCompany.RentEffect | RentalCompany.cpp:209-237 | the cost is seven days at the base rate, less 30% when the customer has at least 100 points; 10 points are earned; the vehicle becomes unavailable; the customer gains a rental due seven days after today, and ends with points minus 90 when discounted and plus 10 otherwise; every other vehicle and customer is unchanged |
| RentalCompany.RentState | RentalCompany.cpp:229-237 | the rented vehicle was available; it and the renter are changed in place at their positions and nowhere else |
| RentalCompany.ReturnVehicle | RentalCompany.cpp:258-286 | the guards run in order (customer not found, vehicle not found, not rented by the customer, invalid date), and a return succeeds exactly when none fires |
| RentalCompany.ReturnCharges | RentalCompany.cpp:274-285 | the days late are counted from the first matching rental's due date and are never negative; the late fee is days late times the vehicle's daily fee; 5 bonus points are earned only when the return is not late |
| RentalCompany.ReturnEffect | RentalCompany.cpp:274-285 | the vehicle becomes available; the customer loses that rental and gains the bonus; every other vehicle and customer is unchanged |
| RentalCompany.ReturnState | RentalCompany.cpp:274-285 | the returned vehicle and the customer are changed in place at their positions: the first rental of the vehicle is erased and 5 points are added when not late |
| Search.CheckVehicle | RentalCompany.cpp:489-494 | the per-vehicle checks clear the match flag exactly when a set criterion fails |
| Search.CheckCustomer | RentalCompany.cpp:522-524 | the per-customer checks clear the match flag exactly when a set criterion fails |
| Search.SearchVehicles | RentalCompany.cpp:484-502 | the loop answers the generic search with the vehicle criteria: exactly the matching vehicles, in fleet order |
| Search.SearchCustomers | RentalCompany.cpp:517-532 | the loop answers the generic search with the customer criteria: exactly the matching customers, in roster order |
| Search.TypeIgnored | RentalCompany.cpp:489-494 | the type criterion never affects a vehicle search |
| Search.DefaultFindsAllVehicles | SearchCriteria.h:20-24 | default criteria find every vehicle, in order |
| Search.DefaultFindsAllCustomers | SearchCriteria.h:34-35 | default criteria find every customer, in order |
| Search.AvailabilityOnlyWhenFiltered | RentalCompany.cpp:494 | the wanted availability matters only when the availability filter is on |
| Search.ZeroToleranceIsExact | RentalCompany.cpp:491 | with the default model tolerance of zero, only vehicles whose model equals the searched one match |
| Search.CapacityIsEquality | RentalCompany.cpp:492 | a vehicle with more passengers than the criterion does not match: the test is equality, not a minimum |
| Search.ExactCriteriaMatchExactly | RentalCompany.cpp:489-494 | with every criterion set and both tolerances zero, a vehicle matches exactly when its make, model, passengers, storage and availability are the ones asked for |
| Search.ExactCustomerCriteriaMatchExactly | RentalCompany.cpp:522-524 | with the identifier and a name set and a name tolerance of zero, a customer matches exactly when both are equal |
| Search.SearchByIdIsLookup | RentalCompany.cpp:523 | with unique identifiers, a search by identifier alone answers the customer a lookup finds, or nothing |
| Consistency.UnavailableIffHeldByOne | RentalCompany.cpp:205-233 | in a consistent company an available vehicle is held by no customer and an unavailable one by exactly one |
| Consistency.RentPreservesConsistency | RentalCompany.cpp:194-239 | a successful rental keeps the company consistent |
| Consistency.OpenRentalPreserves | RentalCompany.cpp:232-233 | recording a rental of an available vehicle and marking it unavailable keeps the company consistent |
| Consistency.ReturnShape | RentalCompany.cpp:274-275 | a successful return makes the vehicle available at its position and erases one rental of it from the customer at their position |
| Consistency.CloseRentalPreserves | RentalCompany.cpp:274-275 | erasing a customer's rental of an unavailable vehicle and making it available keeps the company consistent |
| Consistency.CloseRentalResolves | RentalCompany.cpp:274-275 | after erasing one rental and making its vehicle available, every remaining rental still names a fleet vehicle |
| Consistency.CloseRentalHolds | RentalCompany.cpp:274-275 | after erasing a rental of an unavailable vehicle and making it available, availability again mirrors the number of rentals held |
| Consistency.ReturnPreservesConsistency | RentalCompany.cpp:258-286 | a successful return keeps the company consistent |
| Consistency.EmptyIsConsistent | RentalCompany.cpp:538-541 | the empty company is consistent |
| Consistency.ClearIsEmpty | RentalCompany.cpp:538-541 | clearing gives the empty company, which is consistent |
| Consistency.AddVehiclePreserves | RentalCompany.cpp:33-38 | adding an available vehicle keeps the company consistent |
| Consistency.AddCustomerPreserves | RentalCompany.cpp:63-68 | adding a customer without rentals keeps the company consistent |
| Consistency.RemoveVehiclePreserves | RentalCompany.cpp:47-54 | removing an available vehicle succeeds and keeps the company consistent |
| Consistency.RemoveCustomerPreserves | RentalCompany.cpp:77-84 | removing a customer without rentals succeeds and keeps the company consistent |
| Consistency.RemoveVehicleForgets | RentalCompany.cpp:47-54 | after a removal the vehicle is not found, and every other vehicle lookup is unchanged |
| Consistency.RemoveCustomerForgets | RentalCompany.cpp:77-84 | after a removal the customer is not found, and every other customer lookup is unchanged |
| Consistency.RentStartsOnlyHold | RentalCompany.cpp:194-239 | in a consistent company the new rental is the renter's only rental of the vehicle, appended last and due seven days after today |
| Consistency.AvailableHeldByNobody | RentalCompany.cpp:205-207 | in a consistent company no customer holds an available vehicle |
| Consistency.RentThenReturnCompany | RentalCompany.cpp:194-286 | in a consistent company, renting and then returning on a valid day succeeds, is late by the positive part of the return day minus the due day, and restores the vehicle and the customer's rentals |
| Consistency.ReturnOnlyHold | RentalCompany.cpp:258-286 | returning a vehicle whose only rental is the customer's last succeeds, is late from that rental's due date, makes the vehicle available and leaves the earlier rentals |
| Streams.LineSpan | RentalCompany.cpp:309 | `getline` reads up to, and not including, the first newline |
| Streams.SplitLines | RentalCompany.cpp:309 | the repeated `getline` gives no line for an empty text and lines that hold no newline |
| Streams.SplitJoin | RentalCompany.cpp:309 | lines without newlines, each written with a trailing newline, are read back one by one exactly |
| Streams.ReadWord | RentalCompany.cpp:316 | `>>` into a string skips whitespace and reads a non-empty run of non-space characters, stopping before whitespace or the end |
| Streams.BlankReadsNoWord | RentalCompany.cpp:316-318 | reading a word fails exactly when the rest of the line is all whitespace |
| Streams.ReadWordOf | RentalCompany.cpp:316 | a word followed by whitespace or the end is read back whole |
| Streams.ReadWords | RentalCompany.cpp:397 | every token the vehicle-identifier loop reads is a non-empty word without whitespace |
| Streams.JoinWords | RentalCompany.cpp:467-469 | each identifier is written after a space, so the text is empty or starts with a space, and it holds no newline when the identifiers are words |
| Streams.ReadJoinedWords | RentalCompany.cpp:397 | words written each after a space are read back by the repeated extraction, in order |
| Streams.ReadInt | RentalCompany.cpp:376 | `>>` into an int reads a value in the 32-bit range, after which the unread text does not start with a digit; a failed read stores 0, the smallest or the largest int |
| Streams.ReadNumberOverflow | RentalCompany.cpp:387-391 | digits whose value exceeds the largest int fail and store the largest int; a minus sign then digits beyond the smallest int fail and store the smallest |
| Streams.IntToString | RentalCompany.cpp:466 | `<<` of an int writes a minus sign exactly for a negative value, then decimal digits whose value is the magnitude, and no newline |
| Streams.NatToString | RentalCompany.cpp:456-457 | writing a non-negative number gives a non-empty run of digits whose value is the number |
| Streams.ReadIntOf | RentalCompany.cpp:466 | an int written with `<<` and not followed by a digit is read back as the same int |
| Streams.ReadQuoted | RentalCompany.cpp:328 | a failed quoted read leaves only whitespace, or an opening quote whose string does not close |
| Streams.Escape | RentalCompany.cpp:455-456 | escaping at most doubles the length and adds no newline |
| Streams.Quote | RentalCompany.cpp:455-456 | the quoted form starts and ends with a double quote and holds a newline only when the string does |
| Streams.ReadQuotedOf | RentalCompany.cpp:455-456 | a string written with `std::quoted` is read back exactly by `std::quoted`, whatever quotes, backslashes or spaces it holds |
| Streams.QuotedBodyOf | RentalCompany.cpp:455-456 | the escaped characters then the closing quote are read back as the original string |
| LineCodec.FormatVehicleLine | RentalCompany.cpp:455-457 | the line written for a vehicle with a one-word identifier and no newline in make or model holds no newline, so it stays one line of the file |
| LineCodec.ParseVehicleLine | RentalCompany.cpp:309-364 | a loaded vehicle has a one-word identifier, its variant's late fee, and 32-bit counts |
| LineCodec.ParseVehicleFields | RentalCompany.cpp:328-357 | the fields after the identifier build a vehicle of the given variant and identifier with that variant's late fee |
| LineCodec.ParseCounts | RentalCompany.cpp:328 | the three counts read are in the 32-bit range |
| LineCodec.BlankVehicleLineSkipped | RentalCompany.cpp:316-318 | a blank line adds no vehicle |
| LineCodec.CountsRoundTrip | RentalCompany.cpp:456-457 | three 32-bit counts written with spaces are read back unchanged |
| LineCodec.FieldsRoundTrip | RentalCompany.cpp:455-457 | the fields written after the identifier load back as the same vehicle |
| LineCodec.VehicleLineRoundTrip | RentalCompany.cpp:435-458 | the line written for a vehicle with a one-word identifier and 32-bit counts loads back as the same vehicle |
| LineCodec.UnknownTypeIsCarId | RentalCompany.cpp:333-341 | a line whose first word is not a type tag loads as the line with "Car" put in front |
| LineCodec.RentedIds | RentalCompany.cpp:467-469 | the identifiers written are those of the rentals, one each, in order |
| LineCodec.FormatCustomerLine | RentalCompany.cpp:466-470 | the line written for a savable customer whose name holds no newline holds no newline, so it stays one line of the file |
| LineCodec.ParseCustomerLine | RentalCompany.cpp:370-397 | a loaded customer record has a 32-bit identifier and one-word vehicle identifiers |
| LineCodec.ParseCustomerTail | RentalCompany.cpp:381-397 | the vehicle identifiers after the points are one-word tokens |
| LineCodec.CustomerLineRoundTrip | RentalCompany.cpp:464-471 | the line written for a customer loads back with the same identifier, name, points and rented identifiers in order |
| LineCodec.NoNumberHere | RentalCompany.cpp:387 | a failed read of the points leaves them 0 |
| LineCodec.PointsOptional | RentalCompany.cpp:381-391 | a line without points loads with 0 points, and the word after the name is read as a vehicle identifier |
| LineCodec.TailWithoutPoints | RentalCompany.cpp:384-397 | when no number follows the name, the stream is put back and every word is read as a vehicle identifier |
| LineCodec.PointsOverflow | RentalCompany.cpp:381-397 | points too large for an int load as the largest int, the stream is put back, and the same digits are read again as the first vehicle identifier |
| Persistence.VehicleLines | RentalCompany.cpp:435-458 | one vehicle line per vehicle, in fleet order |
| Persistence.CustomerLines | RentalCompany.cpp:464-471 | one customer line per customer, in roster order |
| Persistence.SaveVehicles | RentalCompany.cpp:435-458 | when no vehicle identifier holds whitespace and no make or model a newline, the vehicles file splits back into exactly one written line per vehicle, in fleet order |
| Persistence.SaveCustomers | RentalCompany.cpp:463-471 | when every customer is savable and no name holds a newline, the customers file splits back into exactly one written line per customer, in roster order |
| Persistence.SaveToFile | RentalCompany.cpp:427-472 | a save succeeds exactly when both files open; an unopenable file is left untouched and reports the open error; the customers file is left empty when the vehicles file fails |
| Persistence.LoadVehicleLines | RentalCompany.cpp:309-364 | the roster is untouched; loaded vehicles are appended after the existing ones, at most one per line; the only failure is a duplicate identifier |
| Persistence.FreshRentals | RentalCompany.cpp:400-404 | one rental per identifier, each from today and due seven days later |
| Persistence.AttachRentals | RentalCompany.cpp:396-410 | attaching only marks vehicles unavailable and only appends rentals, at most one per identifier; the customer's identity and points are unchanged |
| Persistence.AttachOne | RentalCompany.cpp:397-409 | an unknown identifier changes nothing; a known one appends a rental due in seven days and marks the vehicle unavailable, whether or not it was already rented |
| Persistence.LoadCustomer | RentalCompany.cpp:393-411 | the line fails exactly when its identifier is already in the roster, and then the roster is unchanged; otherwise the customer is added after the existing ones; vehicles are only marked unavailable |
| Persistence.LoadCustomerLines | RentalCompany.cpp:370-412 | customers are appended after the existing ones, at most one per line; the only failure is a duplicate identifier |
| Persistence.DuplicateVehicleAborts | RentalCompany.cpp:346-358 | a vehicle line whose identifier is already in the fleet ends the load with the duplicate error, adding neither it nor any later line |
| Persistence.DuplicateCustomerAborts | RentalCompany.cpp:370-412 | a customer line whose identifier is already in the roster ends the load with the duplicate error and an unchanged roster, after the vehicles it names were marked rented; no later line is read |
| Persistence.LoadFromFile | RentalCompany.cpp:300-413 | an unopenable vehicles file changes nothing; success needs both files; failures are an unopenable file or a duplicate identifier; what was held is kept as a prefix, and the held vehicles are only marked unavailable |
| Persistence.OnlyMarkedRentedTrans | RentalCompany.cpp:405 | marking vehicles unavailable in two steps is again only marking them unavailable |
| Persistence.ReloadedRoster | RentalCompany.cpp:400-404 | each reloaded customer keeps their rented identifiers, with fresh dates |
| Persistence.LoadSavedVehicles | RentalCompany.cpp:309-364 | the saved lines of vehicles with new unique identifiers load back as those vehicles, in order, without failure |
| Persistence.LoadSavedCustomers | RentalCompany.cpp:370-412 | the saved lines of customers whose rented vehicles are all unavailable load back as those customers with fresh rental dates, without failure |
| Persistence.AttachUnavailable | RentalCompany.cpp:396-410 | when every identifier names an unavailable vehicle, attaching leaves the fleet unchanged and appends one fresh rental per identifier |
| Persistence.HeldAreUnavailable | RentalCompany.cpp:232-233 | in a consistent company every vehicle a customer holds is in the fleet and unavailable |
| Persistence.SaveThenLoad | RentalCompany.cpp:300-472 | loading the two files a savable company was saved to (consistent, one-word vehicle identifiers, 32-bit counts, no newline in names, makes or models), into an empty company, gives back the same fleet and customers without failure; only the rental dates become today and a week later |
| Persistence.ReloadKeepsConsistency | RentalCompany.cpp:396-411 | refreshing the rental dates keeps a consistent company consistent |
| Persistence.HoldCountReloaded | RentalCompany.cpp:396-411 | refreshing the rental dates does not change how many rentals of a vehicle are held |

## Left out

- Display code (`displayVehicle`, `displayCustomer`, `display*` of the company, `toRow`, the table printer) and `main.cpp`: output and the menu loop only.
- The console messages of rent and return, including the printed cost, discount and late fee. The model returns them as values of the receipt instead.
- The clock and the calendar. `getCurrentDate` becomes the parameter `today`. `addDays` and `daysDifference` become integer day arithmetic, and a date a user types is either a day or unparseable. Time zones, daylight saving, `mktime` normalisation of out-of-range fields and `isValidDate` are not modelled.
- Opening files and stream state beyond one line. A file is given as its contents, or as "could not be opened".
- Floating point. Rates, fees and the discount are integer cents, and 30% of a seven-day cost is exact for every variant (`RentalCompany.DiscountIsExact`).
- `sortItems` (Utils.h:46-48): no operation of the core calls it.
- `searchItemById`, `addItem` and `removeItem` (Utils.h:28-42): one-line delegations to the repository, which are `Repositories.FindById`, `Repositories.Add` and `Repositories.Remove`.
- `getAll` (Repository.h:52-54): it is the repository's item sequence itself.
- The "Unknown" type tag of `saveToFile` (RentalCompany.cpp:451-453): every vehicle is one of the four variants, so the branch cannot be reached.
- The last `else` of the loader's variant dispatch (RentalCompany.cpp:359-363): the type is always one of the four tags there.
- The virtual `getType` of each variant: it is `Vehicles.TypeTag`.
- `int` overflow of loyalty-point arithmetic: points are unbounded integers. The 32-bit range is modelled only where the files are read.
- Aliasing of `shared_ptr`: a rental names its vehicle by identifier. A record changed in place is replaced at its position (`Repositories.UpdateAt`).
- RentalCompany.ClearData: states only that both repositories end up empty. `Consistency.ClearIsEmpty` states the whole result.
- LineCodec.ParseVehicleLine: states the properties every loaded vehicle has. The exact value is given by its definition and by `LineCodec.VehicleLineRoundTrip` and `LineCodec.UnknownTypeIsCarId`; malformed lines other than blank ones are not characterised.
- LineCodec.ParseCustomerLine: states the properties every loaded record has. The exact value is given by `LineCodec.CustomerLineRoundTrip` and `LineCodec.PointsOptional`.
- Persistence.LoadFromFile: states the shape of any load. The exact result is given only for files the company itself saved (`Persistence.SaveThenLoad`).
- Persistence.LoadVehicleLines: states the shape of any load. That a duplicate identifier ends the load, with nothing of that line or later lines added, is `Persistence.DuplicateVehicleAborts`.
- Persistence.LoadCustomerLines: states the shape of any load. That a duplicate identifier ends the load, with the roster unchanged, is `Persistence.DuplicateCustomerAborts`.
- EditDistance.LevenshteinDistance: measures strings of characters. The source measures `std::string`s, which hold UTF-8 bytes, so the two agree on single-byte (ASCII) text only; "Zoë" against "Zoe" is 2 edits in the source and 1 in the model. Bytes are not modelled because names and makes are `string` throughout the model.
- Repositories.Remove: erases every item equal in value to the given one. The source's `std::remove` compares `shared_ptr`s, so it erases only that record; two distinct records with equal fields would both be erased here. Through `RentalCompany` the difference cannot show, because `addVehicle` and `addCustomer` refuse a second record with the same identifier.
- Persistence.AttachRentals: states what attaching may change. The exact result is given when every identifier names an unavailable vehicle (`Persistence.AttachUnavailable`) and for one identifier (`Persistence.AttachOne`).
