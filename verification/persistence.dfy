/** `loadFromFile` and `saveToFile`: the two flat files as whole texts.
    A file that cannot be opened is an absent text (`None`); the clock that
    dates the rentals recreated by a load is the parameter `today`. */
module Persistence {
  import opened Outcomes
  import opened Dates
  import opened Streams
  import opened Vehicles
  import opened Customers
  import opened Repositories
  import opened RentalCompany
  import opened LineCodec
  import opened Consistency

  // ----------------------------------------------------------------- save

  /** One formatted line per vehicle, in fleet order. */
  function VehicleLines(vs: seq<Vehicle>): (lines: seq<string>)
    ensures |lines| == |vs|
    ensures forall k :: 0 <= k < |vs| ==> lines[k] == FormatVehicleLine(vs[k])
  {
    if |vs| == 0 then [] else [FormatVehicleLine(vs[0])] + VehicleLines(vs[1..])
  }

  /** One formatted line per customer, in roster order. */
  function CustomerLines(cs: seq<Customer>): (lines: seq<string>)
    ensures |lines| == |cs|
    ensures forall k :: 0 <= k < |cs| ==> lines[k] == FormatCustomerLine(cs[k])
  {
    if |cs| == 0 then [] else [FormatCustomerLine(cs[0])] + CustomerLines(cs[1..])
  }

  /** The vehicles file: one line per vehicle, each ended by a newline.
      When no identifier, make or model holds a newline, the file splits
      back into exactly those lines. */
  function SaveVehicles(c: Company): (f: string)
    ensures (forall i :: 0 <= i < |c.fleet.items| ==>
               IsWord(c.fleet.items[i].id) && NoNewline(c.fleet.items[i].make) && NoNewline(c.fleet.items[i].model))
            ==> SplitLines(f) == VehicleLines(c.fleet.items)
  {
    var lines := VehicleLines(c.fleet.items);
    SplitJoinWhenLines(lines);
    JoinLines(lines)
  }

  /** The customers file: one line per customer, each ended by a newline.
      When every customer is savable and no name holds a newline, the file
      splits back into exactly those lines. */
  function SaveCustomers(c: Company): (f: string)
    ensures (forall k :: 0 <= k < |c.roster.items| ==>
               SavableCustomer(c.roster.items[k]) && NoNewline(c.roster.items[k].name))
            ==> SplitLines(f) == CustomerLines(c.roster.items)
  {
    var lines := CustomerLines(c.roster.items);
    SplitJoinWhenLines(lines);
    JoinLines(lines)
  }

  /** The two files after a save: `None` for a file that could not be
      opened (and is left as it was), otherwise its new contents. */
  datatype SaveOutcome = SaveOutcome(vehiclesFile: Option<string>, customersFile: Option<string>,
                                     failure: Option<Error>)

  /** `saveToFile`: both files are opened (and so emptied) first; a vehicles
      file that cannot be opened stops the save before anything is written,
      a customers file that cannot be opened stops it after the vehicles. */
  function SaveToFile(c: Company, vehiclesWritable: bool, customersWritable: bool): (o: SaveOutcome)
    ensures o.failure.None? <==> vehiclesWritable && customersWritable
    ensures o.failure.Some? ==> o.failure.value == FileOpen
    ensures o.vehiclesFile.Some? <==> vehiclesWritable
    ensures o.customersFile.Some? <==> customersWritable
    ensures o.vehiclesFile.Some? ==> o.vehiclesFile.value == SaveVehicles(c)
    ensures o.customersFile.Some? ==>
      o.customersFile.value == if vehiclesWritable then SaveCustomers(c) else ""
  {
    var truncated := if customersWritable then Some("") else None;
    if !vehiclesWritable then SaveOutcome(None, truncated, Some(FileOpen))
    else if !customersWritable then SaveOutcome(Some(SaveVehicles(c)), None, Some(FileOpen))
    else SaveOutcome(Some(SaveVehicles(c)), Some(SaveCustomers(c)), None)
  }

  // ----------------------------------------------------------------- load

  /** The state a load leaves behind, and the exception that ended it early,
      if any.  Whatever was added before the exception stays. */
  datatype LoadOutcome = LoadOutcome(company: Company, failure: Option<Error>)

  /** The vehicles-file loop: skipped lines are ignored, every other line is
      added with `addVehicle`, and the first duplicate identifier ends the
      load. */
  function LoadVehicleLines(c: Company, lines: seq<string>): (o: LoadOutcome)
    ensures o.company.roster == c.roster
    ensures |c.fleet.items| <= |o.company.fleet.items| <= |c.fleet.items| + |lines|
    ensures o.company.fleet.items[..|c.fleet.items|] == c.fleet.items
    ensures o.failure.Some? ==> o.failure.value == DuplicateVehicleId
    decreases |lines|
  {
    if |lines| == 0 then LoadOutcome(c, None)
    else
      match ParseVehicleLine(lines[0])
      case None => LoadVehicleLines(c, lines[1..])
      case Some(v) =>
        match AddVehicle(c, v)
        case Err(e) => LoadOutcome(c, Some(e))
        case Ok(c') =>
          var o := LoadVehicleLines(c', lines[1..]);
          assert o.company.fleet.items[..|c.fleet.items|] == o.company.fleet.items[..|c'.fleet.items|][..|c.fleet.items|];
          o
  }

  /** A fleet after the customer loop and a customer being built. */
  datatype Attached = Attached(fleet: Repository<Vehicle>, customer: Customer)

  /** Whether `after` is `before` with some vehicles made unavailable. */
  ghost predicate OnlyMarkedRented(before: seq<Vehicle>, after: seq<Vehicle>) {
    && |after| == |before|
    && forall i :: 0 <= i < |before| ==>
         after[i] == before[i] || after[i] == SetAvailability(before[i], false)
  }

  lemma OnlyMarkedRentedTrans(a: seq<Vehicle>, b: seq<Vehicle>, c: seq<Vehicle>)
    requires OnlyMarkedRented(a, b) && OnlyMarkedRented(b, c)
    ensures OnlyMarkedRented(a, c)
  {
  }

  /** The rentals a load recreates for a list of vehicle identifiers: each
      dated from `today` for the fixed period. */
  function FreshRentals(ids: seq<string>, today: Day): (rs: seq<RentalInfo>)
    ensures |rs| == |ids|
    ensures forall k :: 0 <= k < |ids| ==> rs[k].vehicleId == ids[k]
    ensures forall k :: 0 <= k < |ids| ==> rs[k].rentDate == today && rs[k].dueDate == AddDays(today, RentalDays)
  {
    if |ids| == 0 then [] else [RentalInfo(ids[0], today, AddDays(today, RentalDays))] + FreshRentals(ids[1..], today)
  }

  /** The vehicle-ID loop of one customer line: an ID found in the fleet
      becomes a rental of the customer and makes the vehicle unavailable; an
      unknown ID is passed over. */
  function AttachRentals(fleet: Repository<Vehicle>, cust: Customer, ids: seq<string>, today: Day): (a: Attached)
    ensures OnlyMarkedRented(fleet.items, a.fleet.items)
    ensures a.customer.id == cust.id && a.customer.name == cust.name
    ensures a.customer.loyaltyPoints == cust.loyaltyPoints
    ensures |cust.rentals| <= |a.customer.rentals| <= |cust.rentals| + |ids|
    ensures a.customer.rentals[..|cust.rentals|] == cust.rentals
    decreases |ids|
  {
    if |ids| == 0 then Attached(fleet, cust)
    else
      match FindIndex(fleet.items, VehicleKey, ids[0])
      case None => AttachRentals(fleet, cust, ids[1..], today)
      case Some(vi) =>
        var fleet' := UpdateAt(fleet, vi, SetAvailability(fleet.items[vi], false));
        var cust' := AddRental(cust, RentalInfo(ids[0], today, AddDays(today, RentalDays)));
        var a := AttachRentals(fleet', cust', ids[1..], today);
        OnlyMarkedRentedTrans(fleet.items, fleet'.items, a.fleet.items);
        assert a.customer.rentals[..|cust.rentals|] == a.customer.rentals[..|cust'.rentals|][..|cust.rentals|];
        a
  }

  /** One parsed customer line: the customer is built with its points,
      its rentals are attached (marking the vehicles unavailable), and it is
      added with `addCustomer`; a duplicate identifier fails after the
      vehicles were already marked. */
  function LoadCustomer(c: Company, rec: CustomerRecord, today: Day): (o: LoadOutcome)
    ensures OnlyMarkedRented(c.fleet.items, o.company.fleet.items)
    ensures o.failure.Some? <==> SearchCustomer(c, rec.id).Some?
    ensures o.failure.Some? ==> o.failure.value == DuplicateCustomerId && o.company.roster == c.roster
    ensures o.failure.None? ==> |o.company.roster.items| == |c.roster.items| + 1
    ensures o.company.roster.items[..|c.roster.items|] == c.roster.items
  {
    var cust := SetLoyaltyPoints(NewCustomer(rec.id, rec.name), rec.points);
    var a := AttachRentals(c.fleet, cust, rec.vehicleIds, today);
    var c1 := Company(a.fleet, c.roster);
    match AddCustomer(c1, a.customer)
    case Err(e) => LoadOutcome(c1, Some(e))
    case Ok(c2) => LoadOutcome(c2, None)
  }

  /** The customers-file loop: skipped lines are ignored, every other line
      is loaded with `LoadCustomer`, and the first duplicate identifier ends
      the load. */
  function LoadCustomerLines(c: Company, lines: seq<string>, today: Day): (o: LoadOutcome)
    ensures OnlyMarkedRented(c.fleet.items, o.company.fleet.items)
    ensures |c.roster.items| <= |o.company.roster.items| <= |c.roster.items| + |lines|
    ensures o.company.roster.items[..|c.roster.items|] == c.roster.items
    ensures o.failure.Some? ==> o.failure.value == DuplicateCustomerId
    decreases |lines|
  {
    if |lines| == 0 then LoadOutcome(c, None)
    else
      match ParseCustomerLine(lines[0])
      case None => LoadCustomerLines(c, lines[1..], today)
      case Some(rec) =>
        var o1 := LoadCustomer(c, rec, today);
        if o1.failure.Some? then o1
        else
          var o := LoadCustomerLines(o1.company, lines[1..], today);
          OnlyMarkedRentedTrans(c.fleet.items, o1.company.fleet.items, o.company.fleet.items);
          assert o.company.roster.items[..|c.roster.items|] == o.company.roster.items[..|o1.company.roster.items|][..|c.roster.items|];
          o
  }

  /** `loadFromFile`, adding to what `c` already holds: a vehicles file that
      cannot be opened stops the load before anything is read; a customers
      file that cannot be opened stops it after the vehicles. */
  function LoadFromFile(c: Company, vehiclesFile: Option<string>, customersFile: Option<string>, today: Day): (o: LoadOutcome)
    ensures vehiclesFile.None? ==> o == LoadOutcome(c, Some(FileOpen))
    ensures o.failure.None? ==> vehiclesFile.Some? && customersFile.Some?
    ensures o.failure.Some? ==> o.failure.value in {FileOpen, DuplicateVehicleId, DuplicateCustomerId}
    ensures |c.fleet.items| <= |o.company.fleet.items| && |c.roster.items| <= |o.company.roster.items|
    ensures OnlyMarkedRented(c.fleet.items, o.company.fleet.items[..|c.fleet.items|])
    ensures o.company.roster.items[..|c.roster.items|] == c.roster.items
  {
    match vehiclesFile
    case None => LoadOutcome(c, Some(FileOpen))
    case Some(vtext) =>
      var ov := LoadVehicleLines(c, SplitLines(vtext));
      if ov.failure.Some? then ov
      else
        match customersFile
        case None => LoadOutcome(ov.company, Some(FileOpen))
        case Some(ctext) =>
          var oc := LoadCustomerLines(ov.company, SplitLines(ctext), today);
          assert oc.company.roster.items[..|c.roster.items|] == oc.company.roster.items[..|ov.company.roster.items|];
          oc
  }

  /** A vehicle line whose identifier is already in the fleet ends the
      load there: the failure is reported, nothing of the line or of the
      lines after it is added. */
  lemma DuplicateVehicleAborts(c: Company, line: string, more: seq<string>)
    ensures ParseVehicleLine(line).Some? && SearchVehicle(c, ParseVehicleLine(line).value.id).Some? ==>
              LoadVehicleLines(c, [line] + more) == LoadOutcome(c, Some(DuplicateVehicleId))
  {
    assert ([line] + more)[0] == line;
  }

  /** A customer line whose identifier is already in the roster ends the
      load there: the failure is reported and the roster is unchanged, but
      the vehicles the line names were already marked rented. */
  lemma DuplicateCustomerAborts(c: Company, line: string, more: seq<string>, today: Day)
    requires ParseCustomerLine(line).Some? && SearchCustomer(c, ParseCustomerLine(line).value.id).Some?
    ensures var rec := ParseCustomerLine(line).value;
            var cust := SetLoyaltyPoints(NewCustomer(rec.id, rec.name), rec.points);
            LoadCustomerLines(c, [line] + more, today) ==
              LoadOutcome(Company(AttachRentals(c.fleet, cust, rec.vehicleIds, today).fleet, c.roster),
                          Some(DuplicateCustomerId))
  {
    assert ([line] + more)[0] == line;
  }

  // ----------------------------------------------------------- round trip

  /** The state a save and a load reproduce: the same fleet, the same
      customers in the same order, each rental re-dated from `today`. */
  function ReloadedCustomer(cust: Customer, today: Day): Customer {
    cust.(rentals := FreshRentals(RentedIds(cust.rentals), today))
  }

  function ReloadedRoster(cs: seq<Customer>, today: Day): (rs: seq<Customer>)
    ensures |rs| == |cs|
    ensures forall k :: 0 <= k < |cs| ==> rs[k] == ReloadedCustomer(cs[k], today)
  {
    if |cs| == 0 then [] else [ReloadedCustomer(cs[0], today)] + ReloadedRoster(cs[1..], today)
  }

  function Reloaded(c: Company, today: Day): Company {
    Company(c.fleet, Repository(ReloadedRoster(c.roster.items, today)))
  }

  /** What a company must satisfy to come back from its files: the
      invariant of the workflow, one-line names and makes and models, and
      savable vehicles and customers. */
  ghost predicate Savable(c: Company) {
    && Consistent(c)
    && (forall i :: 0 <= i < |c.fleet.items| ==>
          SavableVehicle(c.fleet.items[i]) && NoNewline(c.fleet.items[i].make) && NoNewline(c.fleet.items[i].model))
    && (forall k :: 0 <= k < |c.roster.items| ==>
          SavableCustomer(c.roster.items[k]) && NoNewline(c.roster.items[k].name))
  }

  /** Every identifier names a vehicle of the fleet that is unavailable. */
  ghost predicate RentedUnavailable(fleet: Repository<Vehicle>, ids: seq<string>) {
    forall k :: 0 <= k < |ids| ==>
      && FindIndex(fleet.items, VehicleKey, ids[k]).Some?
      && !fleet.items[FindIndex(fleet.items, VehicleKey, ids[k]).value].availability
  }

  // Vehicles file.

  lemma LoadOneVehicle(c: Company, v: Vehicle, more: seq<string>)
    requires SavableVehicle(v)
    requires SearchVehicle(c, v.id).None?
    ensures LoadVehicleLines(c, [FormatVehicleLine(v)] + more)
         == LoadVehicleLines(Company(Add(c.fleet, v), c.roster), more)
  {
    VehicleLineRoundTrip(v);
    assert ([FormatVehicleLine(v)] + more)[1..] == more;
  }

  /** Saved vehicle lines load back, in order, after what the fleet holds. */
  lemma {:induction false} LoadSavedVehicles(c: Company, vs: seq<Vehicle>)
    requires forall k :: 0 <= k < |vs| ==> SavableVehicle(vs[k])
    requires UniqueKeys(c.fleet.items + vs, VehicleKey)
    ensures LoadVehicleLines(c, VehicleLines(vs)) == LoadOutcome(Company(Repository(c.fleet.items + vs), c.roster), None)
    decreases |vs|
  {
    if |vs| == 0 {
      assert c.fleet.items + vs == c.fleet.items;
    } else {
      assert VehicleLines(vs) == [FormatVehicleLine(vs[0])] + VehicleLines(vs[1..]);
      LaterKeyIsNew(c.fleet.items, vs, VehicleKey);
      LoadOneVehicle(c, vs[0], VehicleLines(vs[1..]));
      var c' := Company(Add(c.fleet, vs[0]), c.roster);
      ConcatShift(c.fleet.items, vs);
      assert c'.fleet.items + vs[1..] == c.fleet.items + vs;
      LoadSavedVehicles(c', vs[1..]);
    }
  }

  // Customers file.

  /** Marking an unavailable vehicle unavailable changes nothing. */
  lemma MarkUnavailableAgain(fleet: Repository<Vehicle>, vi: nat)
    requires vi < |fleet.items| && !fleet.items[vi].availability
    ensures UpdateAt(fleet, vi, SetAvailability(fleet.items[vi], false)) == fleet
  {
    assert SetAvailability(fleet.items[vi], false) == fleet.items[vi];
    assert fleet.items[vi := fleet.items[vi]] == fleet.items;
  }

  lemma RentedUnavailableTail(fleet: Repository<Vehicle>, ids: seq<string>)
    requires RentedUnavailable(fleet, ids) && |ids| > 0
    ensures RentedUnavailable(fleet, ids[1..])
  {
    forall k | 0 <= k < |ids[1..]|
      ensures ids[1..][k] == ids[k + 1]
    {
    }
  }

  lemma FreshRentalsCons(rentals: seq<RentalInfo>, ids: seq<string>, today: Day)
    requires |ids| > 0
    ensures rentals + [RentalInfo(ids[0], today, AddDays(today, RentalDays))] + FreshRentals(ids[1..], today)
         == rentals + FreshRentals(ids, today)
  {
  }

  /** Rentals of unavailable fleet vehicles are attached in order and
      leave the fleet as it is. */
  lemma {:induction false} AttachUnavailable(fleet: Repository<Vehicle>, cust: Customer, ids: seq<string>, today: Day)
    requires RentedUnavailable(fleet, ids)
    ensures AttachRentals(fleet, cust, ids, today)
         == Attached(fleet, cust.(rentals := cust.rentals + FreshRentals(ids, today)))
    decreases |ids|
  {
    if |ids| == 0 {
      assert cust.rentals + FreshRentals(ids, today) == cust.rentals;
    } else {
      var vi := FindIndex(fleet.items, VehicleKey, ids[0]).value;
      MarkUnavailableAgain(fleet, vi);
      var cust' := AddRental(cust, RentalInfo(ids[0], today, AddDays(today, RentalDays)));
      RentedUnavailableTail(fleet, ids);
      AttachUnavailable(fleet, cust', ids[1..], today);
      FreshRentalsCons(cust.rentals, ids, today);
    }
  }

  lemma LoadOneCustomer(c: Company, cust: Customer, more: seq<string>, today: Day)
    requires SavableCustomer(cust)
    requires RentedUnavailable(c.fleet, RentedIds(cust.rentals))
    requires SearchCustomer(c, cust.id).None?
    ensures LoadCustomerLines(c, [FormatCustomerLine(cust)] + more, today)
         == LoadCustomerLines(Company(c.fleet, Add(c.roster, ReloadedCustomer(cust, today))), more, today)
  {
    CustomerLineRoundTrip(cust);
    var blank := SetLoyaltyPoints(NewCustomer(cust.id, cust.name), cust.loyaltyPoints);
    AttachUnavailable(c.fleet, blank, RentedIds(cust.rentals), today);
    assert blank.rentals + FreshRentals(RentedIds(cust.rentals), today) == FreshRentals(RentedIds(cust.rentals), today);
    assert ([FormatCustomerLine(cust)] + more)[1..] == more;
  }

  /** The identifiers of reloaded customers are the saved ones. */
  lemma ReloadedKeys(pre: seq<Customer>, cs: seq<Customer>, today: Day)
    requires UniqueKeys(pre + cs, CustomerKey) && |cs| > 0
    ensures UniqueKeys(pre + [ReloadedCustomer(cs[0], today)] + cs[1..], CustomerKey)
  {
    var t := pre + [ReloadedCustomer(cs[0], today)] + cs[1..];
    forall i | 0 <= i < |pre + cs|
      ensures CustomerKey((pre + cs)[i]) == CustomerKey(t[i])
    {
      if i > |pre| {
        assert t[i] == cs[1..][i - |pre| - 1] == cs[i - |pre|];
      }
    }
    SameKeysUnique(pre + cs, t, CustomerKey);
  }

  /** Saved customer lines load back, in order, after what the roster
      holds, when every rented vehicle is in the fleet and unavailable. */
  lemma {:induction false} LoadSavedCustomers(c: Company, cs: seq<Customer>, today: Day)
    requires forall k :: 0 <= k < |cs| ==> SavableCustomer(cs[k])
    requires forall k :: 0 <= k < |cs| ==> RentedUnavailable(c.fleet, RentedIds(cs[k].rentals))
    requires UniqueKeys(c.roster.items + cs, CustomerKey)
    ensures LoadCustomerLines(c, CustomerLines(cs), today)
         == LoadOutcome(Company(c.fleet, Repository(c.roster.items + ReloadedRoster(cs, today))), None)
    decreases |cs|
  {
    if |cs| == 0 {
      assert c.roster.items + ReloadedRoster(cs, today) == c.roster.items;
    } else {
      assert CustomerLines(cs) == [FormatCustomerLine(cs[0])] + CustomerLines(cs[1..]);
      LaterKeyIsNew(c.roster.items, cs, CustomerKey);
      LoadOneCustomer(c, cs[0], CustomerLines(cs[1..]), today);
      var c' := Company(c.fleet, Add(c.roster, ReloadedCustomer(cs[0], today)));
      ReloadedKeys(c.roster.items, cs, today);
      assert c'.roster.items + cs[1..] == c.roster.items + [ReloadedCustomer(cs[0], today)] + cs[1..];
      LoadSavedCustomers(c', cs[1..], today);
      var rs := ReloadedRoster(cs, today);
      assert rs[1..] == ReloadedRoster(cs[1..], today);
      ConcatShift(c.roster.items, rs);
    }
  }

  /** In a consistent company every vehicle a customer holds is in the fleet
      and unavailable. */
  lemma HeldAreUnavailable(c: Company, k: nat)
    requires Consistent(c) && k < |c.roster.items|
    ensures RentedUnavailable(c.fleet, RentedIds(c.roster.items[k].rentals))
  {
    var rentals := c.roster.items[k].rentals;
    var ids := RentedIds(rentals);
    forall n | 0 <= n < |ids|
      ensures FindIndex(c.fleet.items, VehicleKey, ids[n]).Some?
      ensures !c.fleet.items[FindIndex(c.fleet.items, VehicleKey, ids[n]).value].availability
    {
      var id := rentals[n].vehicleId;
      assert SearchVehicle(c, id).Some?;
      var vi := FindIndex(c.fleet.items, VehicleKey, id).value;
      CountRentalsPositive(rentals, id);
      HoldCountAtLeast(c.roster.items, k, id);
      assert HoldCount(c.roster.items, c.fleet.items[vi].id) > 0;
    }
  }

  /** The saved customers load back into a company holding the fleet and
      no customers. */
  lemma LoadSavedRoster(c: Company, today: Day)
    requires Savable(c)
    ensures LoadCustomerLines(Company(c.fleet, Repository([])), CustomerLines(c.roster.items), today)
         == LoadOutcome(Reloaded(c, today), None)
  {
    var c1 := Company(c.fleet, Repository([]));
    forall k | 0 <= k < |c.roster.items|
      ensures RentedUnavailable(c1.fleet, RentedIds(c.roster.items[k].rentals))
    {
      HeldAreUnavailable(c, k);
    }
    assert c1.roster.items + c.roster.items == c.roster.items;
    LoadSavedCustomers(c1, c.roster.items, today);
    assert c1.roster.items + ReloadedRoster(c.roster.items, today) == ReloadedRoster(c.roster.items, today);
  }

  /** Saving a consistent company and loading the two files into an empty
      company gives back the same fleet and the same customers, with every
      rental re-dated from the day of the load. */
  lemma SaveThenLoad(c: Company, today: Day)
    requires Savable(c)
    ensures LoadFromFile(EmptyCompany(), Some(SaveVehicles(c)), Some(SaveCustomers(c)), today)
         == LoadOutcome(Reloaded(c, today), None)
  {
    assert SplitLines(SaveVehicles(c)) == VehicleLines(c.fleet.items) by {
      assert forall i :: 0 <= i < |c.fleet.items| ==> SavableVehicle(c.fleet.items[i]);
    }
    assert SplitLines(SaveCustomers(c)) == CustomerLines(c.roster.items);
    var c0 := EmptyCompany();
    assert c0.fleet.items + c.fleet.items == c.fleet.items;
    LoadSavedVehicles(c0, c.fleet.items);
    LoadSavedRoster(c, today);
  }

  // ------------------------------------------------------- what a load keeps

  /** One vehicle identifier of a customer line: a fleet vehicle becomes a
      rental of the customer whether or not it was already rented out, and
      an identifier missing from the fleet is passed over. */
  lemma AttachOne(fleet: Repository<Vehicle>, cust: Customer, id: string, today: Day)
    ensures var a := AttachRentals(fleet, cust, [id], today);
            match FindIndex(fleet.items, VehicleKey, id)
            case None => a == Attached(fleet, cust)
            case Some(vi) =>
              && a.customer.rentals == cust.rentals + [RentalInfo(id, today, today + 7)]
              && a.fleet == UpdateAt(fleet, vi, SetAvailability(fleet.items[vi], false))
  {
    assert [id][1..] == [];
  }

  /** Rentals with the same vehicle identifiers, position by position, hold
      every vehicle equally often. */
  lemma {:induction false} CountRentalsSameIds(a: seq<RentalInfo>, b: seq<RentalInfo>, vehicleId: string)
    requires |a| == |b| && forall n :: 0 <= n < |a| ==> a[n].vehicleId == b[n].vehicleId
    ensures CountRentals(a, vehicleId) == CountRentals(b, vehicleId)
  {
    if |a| > 0 {
      CountRentalsSameIds(a[1..], b[1..], vehicleId);
    }
  }

  /** Re-dating a customer's rentals keeps its hold on every vehicle. */
  lemma {:induction false} HoldCountReloaded(cs: seq<Customer>, today: Day, vehicleId: string)
    ensures HoldCount(ReloadedRoster(cs, today), vehicleId) == HoldCount(cs, vehicleId)
  {
    if |cs| > 0 {
      var rs := ReloadedRoster(cs, today);
      assert rs[1..] == ReloadedRoster(cs[1..], today);
      CountRentalsSameIds(rs[0].rentals, cs[0].rentals, vehicleId);
      HoldCountReloaded(cs[1..], today, vehicleId);
    }
  }

  /** The company a save and a load reproduce is consistent when the saved
      one was: the rentals are re-dated but name the same vehicles. */
  lemma ReloadKeepsConsistency(c: Company, today: Day)
    requires Consistent(c)
    ensures Consistent(Reloaded(c, today))
  {
    var r := Reloaded(c, today);
    SameKeysUnique(c.roster.items, r.roster.items, CustomerKey);
    forall k, n | 0 <= k < |r.roster.items| && 0 <= n < |r.roster.items[k].rentals|
      ensures r.roster.items[k].rentals[n].vehicleId == c.roster.items[k].rentals[n].vehicleId
    {
    }
    forall i | 0 <= i < |r.fleet.items|
      ensures HoldCount(r.roster.items, r.fleet.items[i].id) == HoldCount(c.roster.items, c.fleet.items[i].id)
    {
      HoldCountReloaded(c.roster.items, today, c.fleet.items[i].id);
    }
  }
}
