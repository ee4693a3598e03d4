/**
 * The read-only commands of `bike`: `stats` (`print_stats`, bike.py:213-230),
 * `rides` (`print_rides`, bike.py:233-273) and `view` (bike.py:290-305). Each
 * loads the store with the requested years and returns what it would print;
 * number formatting is not modelled, the values are.
 */
module BikeCommands {
  import opened Results
  import Floats
  import Timestamps
  import opened RideRecord
  import opened RideStore
  import opened Statistics

  /** `', '.join(map(str, args.year))` can be built only when `args.year` is
      iterable; for an int (the command line's default) it raises TypeError. */
  predicate Iterable(year: YearArg) {
    year.YearList? || year.YearText?
  }

  // ----- stats -----

  datatype StatsReport =
    | StatsFailed(error: LoadError)                  // read_db_file raised
    | NoRidesFor(year: YearArg)                      // "No rides for year(s): ..."
    | NoRidesTypeError                               // building that message raised
    | Totals(distance: real, duration: real, speed: Speed)

  /** `print_stats`: totals over the selected rides, and their average speed
      unless the total duration is zero. */
  method PrintStats(db: RideStore.RideFile, year: YearArg, currentYear: int) returns (report: StatsReport)
    ensures var loaded := Load(db.lines, SelectionOf(year, currentYear));
      && (loaded.Err? ==> report == StatsFailed(loaded.error))
      && (loaded.Ok? && loaded.value == [] ==>
            report == (if Iterable(year) then NoRidesFor(year) else NoRidesTypeError))
      && (loaded.Ok? && loaded.value != [] ==>
            var distance, duration := Sum(Distances(loaded.value)), Sum(Durations(loaded.value));
            report == Totals(distance, duration, SpeedOf(distance, duration)))
  {
    var loaded := db.ReadDbFile(year, currentYear);
    if loaded.Err? {
      return StatsFailed(loaded.error);
    }
    var rides := loaded.value;
    if |rides| == 0 {
      return if Iterable(year) then NoRidesFor(year) else NoRidesTypeError;
    }
    var distance, duration := SumRides(rides);
    report := Totals(distance, duration, SpeedOf(distance, duration));
  }

  /** The summing loop of bike.py:219-223. */
  method SumRides(rides: seq<Ride>) returns (totDistance: real, totDuration: real)
    ensures totDistance == Sum(Distances(rides)) && totDuration == Sum(Durations(rides))
  {
    totDistance := 0.0;
    totDuration := 0.0;
    var i := 0;
    while i < |rides|
      invariant 0 <= i <= |rides|
      invariant totDistance == Sum(Distances(rides)[..i])
      invariant totDuration == Sum(Durations(rides)[..i])
    {
      TotalsStep(rides, i);
      totDistance := totDistance + rides[i].distance.Value();
      totDuration := totDuration + rides[i].duration.Value();
      i := i + 1;
    }
    TotalsDone(rides);
  }

  lemma TotalsStep(rides: seq<Ride>, i: nat)
    requires i < |rides|
    ensures Sum(Distances(rides)[..i + 1]) == Sum(Distances(rides)[..i]) + rides[i].distance.Value()
    ensures Sum(Durations(rides)[..i + 1]) == Sum(Durations(rides)[..i]) + rides[i].duration.Value()
  {
    assert Distances(rides)[..i + 1] == Distances(rides)[..i] + [rides[i].distance.Value()];
    assert Durations(rides)[..i + 1] == Durations(rides)[..i] + [rides[i].duration.Value()];
    SumAppend(Distances(rides)[..i], rides[i].distance.Value());
    SumAppend(Durations(rides)[..i], rides[i].duration.Value());
  }

  lemma TotalsDone(rides: seq<Ride>)
    ensures Distances(rides)[..|rides|] == Distances(rides)
    ensures Durations(rides)[..|rides|] == Durations(rides)
  {
  }

  lemma DistancesAppend(rides: seq<Ride>, r: Ride)
    ensures Distances(rides + [r]) == Distances(rides) + [r.distance.Value()]
    ensures Durations(rides + [r]) == Durations(rides) + [r.duration.Value()]
  {
  }

  /** After `add_ride`, the totals of every selection holding the new ride's
      year grow by its distance and duration; other selections are unchanged. */
  lemma TotalsAfterAdd(lines: seq<string>, ys: seq<int>, r: Ride)
    requires Load(lines, Only(ys)).Ok?
    ensures Load(lines + [EncodeRide(r)], Only(ys)).Ok?
    ensures var before := Load(lines, Only(ys)).value;
      var after := Load(lines + [EncodeRide(r)], Only(ys)).value;
      && Sum(Distances(after)) == Sum(Distances(before)) + (if r.timestamp.year in ys then r.distance.Value() else 0.0)
      && Sum(Durations(after)) == Sum(Durations(before)) + (if r.timestamp.year in ys then r.duration.Value() else 0.0)
  {
    LoadAfterAppend(lines, ys, r);
    var before := Load(lines, Only(ys)).value;
    if r.timestamp.year in ys {
      var added := r.(id := |lines|);
      DistancesAppend(before, added);
      SumAppend(Distances(before), added.distance.Value());
      SumAppend(Durations(before), added.duration.Value());
    } else {
      assert before + [] == before;
    }
  }

  // ----- rides -----

  /** One line of the ride list: the stored id, the date to the minute, both
      numbers, the speed, the comment cut to its column, and whether a url exists. */
  datatype RideLine = RideLine(
    id: nat,
    date: string,
    distance: Floats.Float,
    duration: Floats.Float,
    speed: Speed,
    comment: string,
    hasUrl: bool)

  /** The values printed for one ride (bike.py:261-273). */
  function DisplayRide(r: Ride): (line: RideLine)
    ensures line.id == r.id
    ensures line.date == Timestamps.Format(r.timestamp)[..16]
    ensures line.distance == r.distance && line.duration == r.duration
    ensures line.speed == SpeedOf(r.distance.Value(), r.duration.Value())
    ensures |line.comment| <= CommentWidth
    ensures |r.comment| <= CommentWidth ==> line.comment == r.comment
    ensures |r.comment| > CommentWidth ==>
      line.comment == r.comment[..CommentWidth - |Ellipsis|] + Ellipsis
    ensures line.hasUrl <==> r.url != ""
  {
    RideLine(r.id, Timestamps.MinuteText(r.timestamp), r.distance, r.duration,
             SpeedOf(r.distance.Value(), r.duration.Value()), Truncate(r.comment), r.url != "")
  }

  datatype RidesReport =
    | RidesFailed(error: LoadError)
    | NoRidesListed(year: YearArg)
    | NoRidesListTypeError
    | Listing(lines: seq<RideLine>)

  /** `print_rides`: one line per selected ride, in file order. */
  method PrintRides(db: RideStore.RideFile, year: YearArg, currentYear: int) returns (report: RidesReport)
    ensures var loaded := Load(db.lines, SelectionOf(year, currentYear));
      && (loaded.Err? ==> report == RidesFailed(loaded.error))
      && (loaded.Ok? && loaded.value == [] ==>
            report == (if Iterable(year) then NoRidesListed(year) else NoRidesListTypeError))
      && (loaded.Ok? && loaded.value != [] ==>
            report.Listing? && |report.lines| == |loaded.value|
            && forall i :: 0 <= i < |loaded.value| ==> report.lines[i] == DisplayRide(loaded.value[i]))
  {
    var loaded := db.ReadDbFile(year, currentYear);
    if loaded.Err? {
      return RidesFailed(loaded.error);
    }
    var rides := loaded.value;
    if |rides| == 0 {
      return if Iterable(year) then NoRidesListed(year) else NoRidesListTypeError;
    }
    var shown := ListLines(rides);
    report := Listing(shown);
  }

  /** The loop of bike.py:261-273: one line per ride, in order. */
  method ListLines(rides: seq<Ride>) returns (shown: seq<RideLine>)
    ensures |shown| == |rides|
    ensures forall i :: 0 <= i < |rides| ==> shown[i] == DisplayRide(rides[i])
  {
    shown := [];
    var i := 0;
    while i < |rides|
      invariant 0 <= i <= |rides|
      invariant |shown| == i
      invariant forall j :: 0 <= j < i ==> shown[j] == DisplayRide(rides[j])
    {
      shown := shown + [DisplayRide(rides[i])];
      i := i + 1;
    }
  }

  /** The id printed for a ride is the row of the file it was read from, not
      its position in the list. */
  lemma ListedIdsAreRows(lines: seq<string>, ys: seq<int>)
    requires Load(lines, Only(ys)).Ok?
    ensures var rides := Load(lines, Only(ys)).value;
      forall i :: 0 <= i < |rides| ==>
        DisplayRide(rides[i]).id < |lines| && Rows(lines)[DisplayRide(rides[i]).id] == Ok(rides[i])
  {
    RowsNumbered(lines);
    LoadSelected(Rows(lines), ys);
  }

  // ----- view -----

  /** The first ride with id `id`, as the `for ... break` of bike.py:293-295 finds it. */
  function FindRide(rides: seq<Ride>, id: int): (found: Option<Ride>)
    ensures found.Some? ==> found.value in rides && found.value.id == id
    ensures found.None? <==> forall i :: 0 <= i < |rides| ==> rides[i].id != id
    decreases |rides|
  {
    if rides == [] then None
    else if rides[0].id == id then Some(rides[0])
    else
      var rest := FindRide(rides[1..], id);
      assert forall i :: 1 <= i < |rides| ==> rides[i] == rides[1..][i - 1];
      rest
  }

  lemma {:induction false} FindRideFirst(rides: seq<Ride>, id: int, i: nat)
    requires i < |rides| && rides[i].id == id
    requires forall j :: 0 <= j < i ==> rides[j].id != id
    ensures FindRide(rides, id) == Some(rides[i])
    decreases i
  {
    if i > 0 {
      FindRideFirst(rides[1..], id, i - 1);
    }
  }

  datatype ViewOutcome =
    | ViewFailed(error: LoadError)
    | NoSuchRide        // "Error: no ride with index ..."
    | NoUrl             // "Error: no URL for ride ..."
    | Opened(url: string)

  /** `view`: opens the url of the selected ride with id `rideId`. */
  method View(db: RideStore.RideFile, year: YearArg, currentYear: int, rideId: int) returns (outcome: ViewOutcome)
    ensures var loaded := Load(db.lines, SelectionOf(year, currentYear));
      && (loaded.Err? ==> outcome == ViewFailed(loaded.error))
      && (loaded.Ok? ==>
            outcome == match FindRide(loaded.value, rideId)
                       case None => NoSuchRide
                       case Some(r) => if r.url != "" then Opened(r.url) else NoUrl)
  {
    var loaded := db.ReadDbFile(year, currentYear);
    if loaded.Err? {
      return ViewFailed(loaded.error);
    }
    var found := Search(loaded.value, rideId);
    match found
    case None =>
      outcome := NoSuchRide;
    case Some(ride) =>
      outcome := if ride.url != "" then Opened(ride.url) else NoUrl;
  }

  /** The `for ride in rides: if ride['id'] == args.ride_id: break` loop of bike.py:293-299. */
  method Search(rides: seq<Ride>, rideId: int) returns (found: Option<Ride>)
    ensures found == FindRide(rides, rideId)
  {
    var i := 0;
    while i < |rides| && rides[i].id != rideId
      invariant 0 <= i <= |rides|
      invariant forall j :: 0 <= j < i ==> rides[j].id != rideId
    {
      i := i + 1;
    }
    if i == |rides| {
      return None;
    }
    FindRideFirst(rides, rideId, i);
    return Some(rides[i]);
  }

  /** `view N` finds a ride exactly when row N of the file holds a ride of a
      selected year, and then finds that ride. */
  lemma ViewFindsRow(lines: seq<string>, ys: seq<int>, id: int)
    requires Load(lines, Only(ys)).Ok?
    ensures var found := FindRide(Load(lines, Only(ys)).value, id);
      && (found.Some? <==> 0 <= id < |lines| && Rows(lines)[id].Ok? && Rows(lines)[id].value.timestamp.year in ys)
      && (found.Some? ==> Rows(lines)[id] == Ok(found.value))
  {
    var rides := Load(lines, Only(ys)).value;
    RowsNumbered(lines);
    LoadSelected(Rows(lines), ys);
    if 0 <= id < |lines| && Rows(lines)[id].Ok? && Rows(lines)[id].value.timestamp.year in ys {
      var r := Rows(lines)[id].value;
      assert r in rides;
      var k :| 0 <= k < |rides| && rides[k] == r;
      assert rides[k].id == id;
    }
  }
}
