/** One line of each flat file, as `saveToFile` writes it and as
    `loadFromFile` reads it:

      vehicles:   Type ID "Make" "Model" passengers capacity 0|1
      customers:  ID "Name" points VID VID ...

    A vehicle line whose first token is not a known type is read as the
    line of a Car with that token as its ID; a customer line whose third
    token is not a number has its points left at 0 and the token read as a
    vehicle ID. */
module LineCodec {
  import opened Outcomes
  import opened Streams
  import opened Vehicles
  import opened Customers

  // ------------------------------------------------------------ vehicles

  /** `<< bool` without `boolalpha`. */
  function BoolToInt(b: bool): int {
    if b then 1 else 0
  }

  /** The vehicle line `saveToFile` writes (without its newline). */
  function FormatVehicleLine(v: Vehicle): (l: string)
    ensures IsWord(v.id) && NoNewline(v.make) && NoNewline(v.model) ==> NoNewline(l)
  {
    var counts := " " + IntToString(v.passengers) + (" " + IntToString(v.capacity)
      + (" " + IntToString(BoolToInt(v.availability))));
    var model := " " + Quote(v.model) + counts;
    var make := " " + Quote(v.make) + model;
    var id := " " + v.id + make;
    NoNewlineConcat(" " + IntToString(v.capacity), " " + IntToString(BoolToInt(v.availability)));
    NoNewlineConcat(" " + IntToString(v.passengers), " " + IntToString(v.capacity)
      + (" " + IntToString(BoolToInt(v.availability))));
    NoNewlineConcat(" " + Quote(v.model), counts);
    NoNewlineConcat(" " + Quote(v.make), model);
    NoNewlineConcat(" " + v.id, make);
    NoNewlineConcat(TypeTag(v.kind), id);
    TypeTag(v.kind) + id
  }

  /** The vehicle `loadFromFile` builds from one line, or `None` when the
      line is skipped (blank, a field missing or not a number).  Text after
      the availability is ignored; any non-zero availability means true. */
  function ParseVehicleLine(line: string): (o: Option<Vehicle>)
    ensures o.Some? ==> IsWord(o.value.id) && o.value.lateFee == LateFeeOf(o.value.kind)
    ensures o.Some? ==> IntMin <= o.value.passengers <= IntMax && IntMin <= o.value.capacity <= IntMax
  {
    match ReadWord(line)
    case Fail => None
    case Got(first, r0) =>
      match ParseTag(first)
      case None => ParseVehicleFields(Car, first, r0)
      case Some(kind) =>
        match ReadWord(r0)
        case Fail => None
        case Got(id, r1) => ParseVehicleFields(kind, id, r1)
  }

  /** The rest of a vehicle line once its type and ID are known. */
  function ParseVehicleFields(kind: Kind, id: string, s: string): (o: Option<Vehicle>)
    ensures o.Some? ==> o.value.id == id && o.value.kind == kind && o.value.lateFee == LateFeeOf(kind)
    ensures o.Some? ==> IntMin <= o.value.passengers <= IntMax && IntMin <= o.value.capacity <= IntMax
  {
    match ReadQuoted(s)
    case Fail => None
    case Got(make, r2) =>
      match ReadQuoted(r2)
      case Fail => None
      case Got(model, r3) =>
        match ParseCounts(r3)
        case None => None
        case Some(counts) =>
          Some(NewVehicle(kind, id, make, model, counts.0, counts.1, counts.2 != 0))
  }

  /** Passengers, storage capacity and availability: three `>> int`. */
  function ParseCounts(s: string): (o: Option<(int, int, int)>)
    ensures o.Some? ==> IntMin <= o.value.0 <= IntMax && IntMin <= o.value.1 <= IntMax
  {
    match ReadInt(s)
    case IntFail(_) => None
    case IntOk(passengers, r4) =>
      match ReadInt(r4)
      case IntFail(_) => None
      case IntOk(capacity, r5) =>
        match ReadInt(r5)
        case IntFail(_) => None
        case IntOk(availInt, _) => Some((passengers, capacity, availInt))
  }

  /** A line of nothing but whitespace is skipped. */
  lemma BlankVehicleLineSkipped(line: string)
    requires forall i :: 0 <= i < |line| ==> IsSpace(line[i])
    ensures ParseVehicleLine(line).None?
  {
    BlankReadsNoWord(line);
  }

  /** What a vehicle must satisfy to survive a save and load unchanged: an
      ID that is one token, 32-bit counts, and its variant's late fee. */
  predicate SavableVehicle(v: Vehicle) {
    && IsWord(v.id)
    && IntMin <= v.passengers <= IntMax && IntMin <= v.capacity <= IntMax
    && v.lateFee == LateFeeOf(v.kind)
  }

  lemma TagIsWord(k: Kind)
    ensures IsWord(TypeTag(k))
  {
  }

  /** The counts written by `saveToFile` are read back. */
  lemma CountsRoundTrip(p: int, c: int, a: int)
    requires IntMin <= p <= IntMax && IntMin <= c <= IntMax && IntMin <= a <= IntMax
    ensures ParseCounts(" " + IntToString(p) + (" " + IntToString(c) + (" " + IntToString(a))))
         == Some((p, c, a))
  {
    var r6 := " " + IntToString(a);
    var r5 := " " + IntToString(c) + r6;
    assert " " + IntToString(p) + (" " + IntToString(c) + (" " + IntToString(a))) == " " + IntToString(p) + r5;
    ReadIntAfterSpace(p, r5);
    ReadIntAfterSpace(c, r6);
    ReadIntAfterSpace(a, "");
    assert r6 + "" == r6;
  }

  /** The fields after the ID are read back. */
  lemma FieldsRoundTrip(v: Vehicle)
    requires SavableVehicle(v)
    ensures ParseVehicleFields(v.kind, v.id, " " + Quote(v.make) + (" " + Quote(v.model)
      + (" " + IntToString(v.passengers) + (" " + IntToString(v.capacity)
      + (" " + IntToString(BoolToInt(v.availability))))))) == Some(v)
  {
    var r4 := " " + IntToString(v.passengers) + (" " + IntToString(v.capacity)
      + (" " + IntToString(BoolToInt(v.availability))));
    var r3 := " " + Quote(v.model) + r4;
    ReadQuotedAfterSpace(v.make, r3);
    ReadQuotedAfterSpace(v.model, r4);
    CountsRoundTrip(v.passengers, v.capacity, BoolToInt(v.availability));
  }

  /** A saved vehicle line loads back as the same vehicle. */
  lemma VehicleLineRoundTrip(v: Vehicle)
    requires SavableVehicle(v)
    ensures ParseVehicleLine(FormatVehicleLine(v)) == Some(v)
  {
    var r2 := " " + Quote(v.make) + (" " + Quote(v.model)
      + (" " + IntToString(v.passengers) + (" " + IntToString(v.capacity)
      + (" " + IntToString(BoolToInt(v.availability))))));
    var r1 := " " + v.id + r2;
    assert FormatVehicleLine(v) == TypeTag(v.kind) + r1;
    TagIsWord(v.kind);
    ReadWordOf(TypeTag(v.kind), r1);
    ReadWordAfterSpace(v.id, r2);
    FieldsRoundTrip(v);
  }

  /** A line whose first token is not a type name reads exactly as the same
      line with `Car` in front: the token becomes the ID of a Car. */
  lemma UnknownTypeIsCarId(first: string, tail: string)
    requires IsWord(first) && ParseTag(first).None?
    requires |tail| == 0 || IsSpace(tail[0])
    ensures ParseVehicleLine(first + tail) == ParseVehicleLine("Car " + first + tail)
  {
    ReadWordOf(first, tail);
    assert "Car " + first + tail == "Car" + (" " + first + tail);
    ReadWordOf("Car", " " + first + tail);
    ReadWordAfterSpace(first, tail);
  }

  // ----------------------------------------------------------- customers

  /** The fields `loadFromFile` reads from a customer line. */
  datatype CustomerRecord = CustomerRecord(id: int, name: string, points: int, vehicleIds: seq<string>)

  /** The vehicle IDs of a rental list, in order. */
  function RentedIds(rentals: seq<RentalInfo>): (ids: seq<string>)
    ensures |ids| == |rentals|
    ensures forall k :: 0 <= k < |rentals| ==> ids[k] == rentals[k].vehicleId
  {
    if |rentals| == 0 then [] else [rentals[0].vehicleId] + RentedIds(rentals[1..])
  }

  /** The customer line `saveToFile` writes: the points are always written,
      then the ID of each active rental in list order. */
  function FormatCustomerLine(c: Customer): (l: string)
    ensures SavableCustomer(c) && NoNewline(c.name) ==> NoNewline(l)
  {
    var ids := RentedIds(c.rentals);
    var points := " " + IntToString(c.loyaltyPoints) + JoinWords(ids);
    var name := " " + Quote(c.name) + points;
    NoNewlineConcat(" " + IntToString(c.loyaltyPoints), JoinWords(ids));
    NoNewlineConcat(" " + Quote(c.name), points);
    NoNewlineConcat(IntToString(c.id), name);
    IntToString(c.id) + name
  }

  /** The fields of a customer line, or `None` when the line is skipped (no
      ID or no name).  The points are optional: when no number follows the
      name the stream is put back where it was and the points are what the
      failed extraction left (0 when there are no digits). */
  function ParseCustomerLine(line: string): (o: Option<CustomerRecord>)
    ensures o.Some? ==> IntMin <= o.value.id <= IntMax
    ensures o.Some? ==> forall k :: 0 <= k < |o.value.vehicleIds| ==> IsWord(o.value.vehicleIds[k])
  {
    match ReadInt(line)
    case IntFail(_) => None
    case IntOk(id, r0) =>
      match ReadQuoted(r0)
      case Fail => None
      case Got(name, r1) =>
        var (points, ids) := ParseCustomerTail(r1);
        Some(CustomerRecord(id, name, points, ids))
  }

  /** What follows the name: the points when a number can be read there,
      otherwise the value the failed extraction stored, with the text put
      back; then every remaining token as a vehicle ID. */
  function ParseCustomerTail(s: string): (tail: (int, seq<string>))
    ensures forall k :: 0 <= k < |tail.1| ==> IsWord(tail.1[k])
  {
    var pointsRead := ReadInt(s);
    var points := if pointsRead.IntOk? then pointsRead.value else pointsRead.stored;
    var r2 := if pointsRead.IntOk? then pointsRead.rest else s;
    (points, ReadWords(r2))
  }

  /** What a customer must satisfy for its line to load back: a 32-bit ID
      and point total, and rentals of one-token vehicle IDs. */
  predicate SavableCustomer(c: Customer) {
    && IntMin <= c.id <= IntMax && IntMin <= c.loyaltyPoints <= IntMax
    && forall k :: 0 <= k < |c.rentals| ==> IsWord(c.rentals[k].vehicleId)
  }

  /** A saved customer line loads back with the same ID, name, points and
      rented vehicle IDs in the same order. */
  lemma CustomerLineRoundTrip(c: Customer)
    requires SavableCustomer(c)
    ensures ParseCustomerLine(FormatCustomerLine(c))
         == Some(CustomerRecord(c.id, c.name, c.loyaltyPoints, RentedIds(c.rentals)))
  {
    var ids := RentedIds(c.rentals);
    var words := JoinWords(ids);
    var r2 := " " + IntToString(c.loyaltyPoints) + words;
    var r1 := " " + Quote(c.name) + r2;
    assert FormatCustomerLine(c) == IntToString(c.id) + r1;
    ReadIntOf(c.id, r1);
    ReadQuotedAfterSpace(c.name, r2);
    ReadIntAfterSpace(c.loyaltyPoints, words);
    ReadJoinedWords(ids);
  }

  /** Whether `>> int` would find a number at the start of `t`: a digit,
      possibly after one sign. */
  predicate StartsNumber(t: string) {
    |t| > 0 && (IsDigit(t[0]) || ((t[0] == '+' || t[0] == '-') && |t| > 1 && IsDigit(t[1])))
  }

  lemma NoNumberHere(t: string)
    requires !StartsNumber(t)
    ensures ReadNumber(t) == IntFail(0)
  {
  }

  /** A line without points: when the token after the name does not start a
      number (or there is none), the points are 0 and every token after the
      name is a vehicle ID. */
  lemma PointsOptional(id: int, name: string, ws: seq<string>)
    requires IntMin <= id <= IntMax
    requires forall k :: 0 <= k < |ws| ==> IsWord(ws[k])
    requires |ws| == 0 || !StartsNumber(ws[0])
    ensures ParseCustomerLine(IntToString(id) + (" " + Quote(name) + JoinWords(ws)))
         == Some(CustomerRecord(id, name, 0, ws))
  {
    var words := JoinWords(ws);
    var r1 := " " + Quote(name) + words;
    assert IntToString(id) + (" " + Quote(name) + words) == IntToString(id) + r1;
    ReadIntOf(id, r1);
    ReadQuotedAfterSpace(name, words);
    TailWithoutPoints(ws);
  }

  /** Tokens after the name that do not start with a number are all
      vehicle IDs, and the points stay 0. */
  lemma TailWithoutPoints(ws: seq<string>)
    requires forall k :: 0 <= k < |ws| ==> IsWord(ws[k])
    requires |ws| == 0 || !StartsNumber(ws[0])
    ensures ParseCustomerTail(JoinWords(ws)) == (0, ws)
  {
    NoPointsAhead(ws);
    ReadJoinedWords(ws);
  }

  lemma NoPointsAhead(ws: seq<string>)
    requires forall k :: 0 <= k < |ws| ==> IsWord(ws[k])
    requires |ws| == 0 || !StartsNumber(ws[0])
    ensures ReadInt(JoinWords(ws)) == IntFail(0)
  {
    if |ws| > 0 {
      var t := ws[0] + JoinWords(ws[1..]);
      JoinWordsCons(ws);
      ReadIntSkipsSpace(' ', t);
      assert t[0] == ws[0][0];
      SkipNoSpace(t);
      assert !StartsNumber(t);
      NoNumberHere(t);
    }
  }

  /** Points too large for an `int`: the extraction fails storing the
      largest `int`, which becomes the points, and the stream is put back,
      so the digits are read again as the first vehicle ID. */
  lemma PointsOverflow(id: int, name: string, ds: string, ws: seq<string>)
    requires IntMin <= id <= IntMax
    requires |ds| > 0 && forall i :: 0 <= i < |ds| ==> IsDigit(ds[i])
    requires DigitsValue(ds) > IntMax
    requires forall k :: 0 <= k < |ws| ==> IsWord(ws[k])
    ensures ParseCustomerLine(IntToString(id) + (" " + Quote(name) + (" " + ds + JoinWords(ws))))
         == Some(CustomerRecord(id, name, IntMax, [ds] + ws))
  {
    var r2 := " " + ds + JoinWords(ws);
    var r1 := " " + Quote(name) + r2;
    ReadIntOf(id, r1);
    ReadQuotedAfterSpace(name, r2);
    TailOverflow(ds, ws);
  }

  lemma TailOverflow(ds: string, ws: seq<string>)
    requires |ds| > 0 && forall i :: 0 <= i < |ds| ==> IsDigit(ds[i])
    requires DigitsValue(ds) > IntMax
    requires forall k :: 0 <= k < |ws| ==> IsWord(ws[k])
    ensures ParseCustomerTail(" " + ds + JoinWords(ws)) == (IntMax, [ds] + ws)
  {
    var s := " " + ds + JoinWords(ws);
    assert ReadInt(s) == IntFail(IntMax) by {
      OverflowAfterSpace(ds, JoinWords(ws));
    }
    assert ReadWords(s) == [ds] + ws by {
      var all := [ds] + ws;
      assert all[0] == ds && all[1..] == ws;
      assert JoinWords(all) == s;
      ReadJoinedWords(all);
    }
  }

  lemma OverflowAfterSpace(ds: string, words: string)
    requires |ds| > 0 && forall i :: 0 <= i < |ds| ==> IsDigit(ds[i])
    requires DigitsValue(ds) > IntMax
    requires |words| == 0 || words[0] == ' '
    ensures ReadInt(" " + ds + words) == IntFail(IntMax)
  {
    var t := ds + words;
    assert ReadNumber(t) == IntFail(IntMax) by {
      ReadNumberOverflow(ds, words);
    }
    assert ReadInt(t) == IntFail(IntMax) by {
      assert t[0] == ds[0];
      SkipNoSpace(t);
    }
    assert " " + ds + words == [' '] + t;
    ReadIntSkipsSpace(' ', t);
  }
}
