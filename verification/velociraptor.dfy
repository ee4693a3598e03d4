/**
 * The logic of the Velociraptor window (Velociraptor.py) apart from its
 * widgets: the row shown for a ride, the graph series, the year list and
 * per-year view, deleting a ride, and the add/edit dialog's checks and effect.
 */
module Velociraptor {
  import opened Results
  import Digits
  import Floats
  import Timestamps
  import DurationParser
  import opened RideRecord
  import opened RideStore
  import opened Statistics

  // ----- format_ride (Velociraptor.py:18-32) -----

  /** The seven values of a row of the ride list. */
  datatype ViewRow = ViewRow(
    id: string,
    date: string,
    distance: Floats.Float,
    duration: Floats.Float,
    speed: Speed,
    comment: string,
    hasUrl: bool)

  function FormatRide(r: Ride): (row: ViewRow)
    ensures Digits.AllDigits(row.id) && Digits.Value(row.id) == r.id
    ensures row.date == Timestamps.Format(r.timestamp)[..10]
    ensures row.distance == r.distance && row.duration == r.duration
    ensures row.speed == SpeedOf(r.distance.Value(), r.duration.Value())
    ensures row.comment == r.comment
    ensures row.hasUrl <==> r.url != ""
  {
    var id := Digits.NatText(r.id);
    Digits.ValueOfNatText(r.id);
    var speed := SpeedOf(r.distance.Value(), r.duration.Value());
    ViewRow(id, Timestamps.DateText(r.timestamp), r.distance, r.duration, speed, r.comment, r.url != "")
  }

  // ----- get_graph_data (Velociraptor.py:275-281) -----

  datatype GraphData = GraphData(cumsum: seq<real>, dates: seq<Timestamps.Stamp>, speeds: seq<real>)

  /** The graph series of the rides in view: running distance, dates, and
      speeds. The speed has no zero-duration guard here, so a ride of zero
      duration raises ZeroDivisionError. */
  function GetGraphData(viewable: seq<Ride>): (g: GraphData)
    requires forall i :: 0 <= i < |viewable| ==> viewable[i].duration.Value() != 0.0
    ensures |g.cumsum| == |viewable| && |g.dates| == |viewable| && |g.speeds| == |viewable|
    ensures forall i :: 0 <= i < |viewable| ==> g.dates[i] == viewable[i].timestamp
  {
    GraphData(
      Accumulate(Distances(viewable)),
      seq(|viewable|, i requires 0 <= i < |viewable| => viewable[i].timestamp),
      Speeds(viewable))
  }

  /** `distance / duration` for each ride, with no zero-duration guard; each is
      the speed the ride list shows for its ride. */
  function Speeds(viewable: seq<Ride>): (speeds: seq<real>)
    requires forall i :: 0 <= i < |viewable| ==> viewable[i].duration.Value() != 0.0
    ensures |speeds| == |viewable|
    ensures forall i :: 0 <= i < |viewable| ==>
      SpeedOf(viewable[i].distance.Value(), viewable[i].duration.Value()) == Kmh(speeds[i])
  {
    seq(|viewable|, i requires 0 <= i < |viewable| => viewable[i].distance.Value() / viewable[i].duration.Value())
  }

  /** The distance series starts at the first ride's distance, adds each ride's
      distance in turn, and ends at the total distance in view. */
  lemma GraphCumulative(viewable: seq<Ride>)
    requires forall i :: 0 <= i < |viewable| ==> viewable[i].duration.Value() != 0.0
    ensures var c := GetGraphData(viewable).cumsum;
      && (viewable != [] ==> c[0] == viewable[0].distance.Value())
      && (forall i :: 0 < i < |viewable| ==> c[i] == c[i - 1] + viewable[i].distance.Value())
      && (viewable != [] ==> c[|c| - 1] == Sum(Distances(viewable)))
  {
    AccumulateSteps(Distances(viewable));
    if viewable != [] {
      AccumulateLast(Distances(viewable));
    }
  }

  // ----- the year list of load_data (Velociraptor.py:264-265) -----

  predicate Descending(ys: seq<int>) {
    forall i, j :: 0 <= i < j < |ys| ==> ys[i] > ys[j]
  }

  /** `y` put in its place in a descending list, unless it is there already. */
  function InsertDescending(ys: seq<int>, y: int): (r: seq<int>)
    requires Descending(ys)
    ensures Descending(r)
    ensures forall x :: x in r <==> x in ys || x == y
    decreases |ys|
  {
    if ys == [] then [y]
    else if y == ys[0] then ys
    else if y > ys[0] then [y] + ys
    else
      var rest := InsertDescending(ys[1..], y);
      assert forall x :: x in ys[1..] ==> x < ys[0];
      assert forall x :: x in ys <==> x == ys[0] || x in ys[1..] by {
        assert ys == [ys[0]] + ys[1..];
      }
      assert forall x :: x in rest ==> x < ys[0];
      var r := [ys[0]] + rest;
      assert forall i :: 0 < i < |r| ==> r[i] == rest[i - 1] && r[i] in rest;
      r
  }

  /** `sorted(set(ride years), reverse=True)`: every year present once,
      latest first. */
  function YearsDescending(rides: seq<Ride>): (ys: seq<int>)
    ensures Descending(ys)
    ensures forall y :: y in ys <==> exists i :: 0 <= i < |rides| && rides[i].timestamp.year == y
    decreases |rides|
  {
    if rides == [] then []
    else
      var k := |rides| - 1;
      var init := YearsDescending(rides[..k]);
      assert forall i :: 0 <= i < k ==> rides[..k][i] == rides[i];
      InsertDescending(init, rides[k].timestamp.year)
  }

  lemma DescendingDistinct(ys: seq<int>)
    requires Descending(ys)
    ensures forall i, j :: 0 <= i < |ys| && 0 <= j < |ys| && i != j ==> ys[i] != ys[j]
  {
  }

  // ----- the add / edit dialog (Velociraptor.py:66-153) -----

  /** The five entry fields of the dialog, as typed. */
  datatype Form = Form(date: string, distance: string, duration: string, comment: string, url: string)

  /** The three fields the dialog checks; a failing one is shown in red. */
  datatype Field = DateField | DistanceField | DurationField

  /** The values the dialog hands on: `self.result` when every check passes. */
  datatype Entry = Entry(
    timestamp: Timestamps.Stamp,
    distance: Floats.Float,
    duration: Floats.Float,
    comment: string,
    url: string)

  datatype Validation = Valid(entry: Entry) | Invalid(marked: set<Field>)

  /** Whether the check of `field` fails on what was typed: `strptime` with
      `TIMESTR`, `float` and `parse_duration` respectively. */
  predicate Fails(form: Form, field: Field) {
    match field
    case DateField => Timestamps.ParseDateTime(form.date).None?
    case DistanceField => Floats.Parse(form.distance).None?
    case DurationField => DurationParser.ParseDuration(form.duration).Err?
  }

  const AllFields: set<Field> := {DateField, DistanceField, DurationField}

  /** The fields `validate` shows in red. */
  function Marked(form: Form): (marked: set<Field>)
    ensures forall field :: field in marked <==> Fails(form, field)
  {
    set field | field in AllFields && Fails(form, field)
  }

  /** `validate`: each of the three checks runs, whether or not an earlier one
      failed, and every failing field is marked; comment and url are taken as
      typed. */
  function Validate(form: Form): (v: Validation)
    ensures v.Valid? <==> Marked(form) == {}
    ensures v.Valid? ==>
      && Timestamps.ParseDateTime(form.date) == Some(v.entry.timestamp)
      && Floats.Parse(form.distance) == Some(v.entry.distance)
      && DurationParser.ParseDuration(form.duration) == Ok(v.entry.duration)
      && v.entry.comment == form.comment && v.entry.url == form.url
    ensures v.Invalid? ==> v.marked == Marked(form)
  {
    var marked := Marked(form);
    if marked == {} then
      assert !Fails(form, DateField) && !Fails(form, DistanceField) && !Fails(form, DurationField);
      var date := Timestamps.ParseDateTime(form.date).value;
      var distance := Floats.Parse(form.distance).value;
      var duration := DurationParser.ParseDuration(form.duration).value;
      Valid(Entry(date, distance, duration, form.comment, form.url))
    else
      Invalid(marked)
  }

  /** The dialog opened on a ride shows its stored values (Velociraptor.py:74-80). */
  function EditForm(r: Ride): Form {
    Form(Timestamps.Format(r.timestamp), Floats.Show(r.distance), Floats.Show(r.duration), r.comment, r.url)
  }

  function EntryOf(r: Ride): Entry {
    Entry(r.timestamp, r.distance, r.duration, r.comment, r.url)
  }

  /** Accepting the edit dialog unchanged gives back the ride's own values
      (a leap second, which `datetime` refuses, excepted). */
  lemma EditFormValidates(r: Ride)
    requires r.timestamp.second <= 59
    ensures Validate(EditForm(r)) == Valid(EntryOf(r))
  {
    var form := EditForm(r);
    Timestamps.ParseFormat(r.timestamp);
    Floats.ParseShow(r.distance);
    DurationParser.ParsePlainNumber(r.duration);
    assert Timestamps.ParseDateTime(form.date) == Some(r.timestamp);
    assert Floats.Parse(form.distance) == Some(r.distance);
    assert DurationParser.ParseDuration(form.duration) == Ok(r.duration);
    assert forall field :: !Fails(form, field);
    assert Marked(form) == {};
  }

  /** The ride with the values of `entry` and the id of `r`. */
  function Edited(r: Ride, entry: Entry): (e: Ride)
    ensures e.id == r.id && EntryOf(e) == entry
  {
    r.(timestamp := entry.timestamp, distance := entry.distance, duration := entry.duration,
       comment := entry.comment, url := entry.url)
  }

  // ----- looking a ride up and removing it -----

  /** `self.rides[rideid]` in `edit_ride` (Velociraptor.py:341); `None` where it
      raises IndexError. */
  function RideToEdit(rides: seq<Ride>, rideid: nat): (r: Option<Ride>)
    ensures r.Some? <==> rideid < |rides|
    ensures r.Some? ==> r.value == rides[rideid]
  {
    if rideid < |rides| then Some(rides[rideid]) else None
  }

  /** Reading the id back from a row of the view finds the ride that row shows,
      when the ride list holds every stored row in order. */
  lemma EditFindsShownRide(rides: seq<Ride>, year: int, r: Ride)
    requires forall i :: 0 <= i < |rides| ==> rides[i].id == i
    requires r in Filter(rides, [year])
    ensures RideToEdit(rides, Digits.Value(FormatRide(r).id)) == Some(r)
  {
    FilterMembers(rides, [year], r);
    var k :| 0 <= k < |rides| && rides[k] == r;
  }

  /** `rides.pop(i)`: the element at `i` is gone and the others keep their order. */
  function Remove(rides: seq<Ride>, i: nat): (r: seq<Ride>)
    requires i < |rides|
    ensures |r| == |rides| - 1
    ensures forall j :: 0 <= j < i ==> r[j] == rides[j]
    ensures forall j :: i <= j < |r| ==> r[j] == rides[j + 1]
  {
    rides[..i] + rides[i + 1..]
  }

  /** After a delete the store reads back as the remaining rides, renumbered:
      rides after the deleted one move down by one id. */
  lemma DeleteReadsBack(rides: seq<Ride>, i: nat)
    requires i < |rides|
    requires forall j :: 0 <= j < |rides| ==> rides[j].id == j
    ensures var kept := Remove(rides, i);
      && Collect(Rows(Persist(kept))) == Ok(Renumber(kept))
      && (forall j :: 0 <= j < i ==> Renumber(kept)[j] == rides[j])
      && (forall j :: i <= j < |kept| ==> Renumber(kept)[j] == rides[j + 1].(id := rides[j + 1].id - 1))
  {
    ReadBackPersist(Remove(rides, i));
  }

  // ----- the window -----

  /** The string `'all'` the GUI passes as `year` (Velociraptor.py:263). */
  const AllYears: string := "all"

  /** `load_data` as written cannot read a non-empty store: `'all'` is a string,
      so the year test raises on the first ride. */
  lemma LoadDataAsWritten(lines: seq<string>, currentYear: int)
    ensures SelectionOf(YearText(AllYears), currentYear) == InText(AllYears)
    ensures lines == [] ==> Load(lines, InText(AllYears)) == Ok([])
    ensures lines != [] ==> Load(lines, InText(AllYears)).Err? && Load(lines, InText(AllYears)).error.row == 0
  {
    RowsNumbered(lines);
    LoadWithText(Rows(lines), AllYears);
  }

  /** The state of `VelociraptorGui` that its logic reads and writes: the
      store, all rides, the year list, the year chosen in the combo box, and
      the rides in view. */
  class Gui {
    const db: RideFile
    var rides: seq<Ride>
    var years: seq<int>
    var selectedYear: int
    var viewableRides: seq<Ride>

    constructor(store: RideFile, currentYear: int)
      ensures db == store && rides == [] && years == [] && viewableRides == []
      ensures selectedYear == currentYear
    {
      db := store;
      rides := [];
      years := [];
      selectedYear := currentYear;
      viewableRides := [];
    }

    /** `load_data`: all rides and their years, or the exception of the load,
        in which case nothing is assigned. */
    method LoadData(currentYear: int) returns (err: Option<LoadError>)
      modifies this
      ensures var loaded := Load(db.lines, SelectionOf(YearText(AllYears), currentYear));
        && (loaded.Err? ==> err == Some(loaded.error) && rides == old(rides) && years == old(years))
        && (loaded.Ok? ==> err == None && rides == loaded.value && years == YearsDescending(loaded.value))
      ensures selectedYear == old(selectedYear) && viewableRides == old(viewableRides)
    {
      var loaded := db.ReadDbFile(YearText(AllYears), currentYear);
      if loaded.Err? {
        return Some(loaded.error);
      }
      rides := loaded.value;
      years := YearsDescending(rides);
      err := None;
    }

    /** `update_rides_view`: the rides of the chosen year, in their order. */
    method UpdateRidesView()
      modifies this
      ensures viewableRides == Filter(rides, [selectedYear])
      ensures forall r :: r in viewableRides <==> r in rides && r.timestamp.year == selectedYear
      ensures rides == old(rides) && years == old(years) && selectedYear == old(selectedYear)
    {
      viewableRides := Filter(rides, [selectedYear]);
      forall r ensures r in viewableRides <==> r in rides && r.timestamp.year == selectedYear {
        FilterMembers(rides, [selectedYear], r);
      }
    }

    /** `change_year`: a year picked in the combo box is shown. */
    method ChangeYear(year: int)
      modifies this
      ensures selectedYear == year && viewableRides == Filter(rides, [year])
      ensures rides == old(rides) && years == old(years)
    {
      selectedYear := year;
      UpdateRidesView();
    }

    /** The data part of `_init_rides_view` (Velociraptor.py:251-255): the view
        is filled for the current year, and only then is the combo box set to
        the latest year present. */
    method InitRidesView(currentYear: int) returns (err: Option<LoadError>)
      modifies this
      ensures var loaded := Load(db.lines, SelectionOf(YearText(AllYears), currentYear));
        && (loaded.Ok? ==>
              && err == None && rides == loaded.value && years == YearsDescending(rides)
              && viewableRides == Filter(rides, [currentYear])
              && selectedYear == (if years != [] then years[0] else currentYear))
        && (loaded.Err? ==>
              && err == Some(loaded.error) && rides == old(rides) && years == old(years)
              && selectedYear == currentYear && viewableRides == old(viewableRides))
    {
      selectedYear := currentYear;
      err := LoadData(currentYear);
      if err.Some? {
        return;
      }
      UpdateRidesView();
      if years != [] {
        selectedYear := years[0];
      }
    }

    /** `del_ride`: removes the ride at list index `rideid` and rewrites the
        store; an index past the end raises IndexError and changes nothing. */
    method DelRide(rideid: nat) returns (ok: bool)
      modifies this, db
      ensures ok <==> rideid < |old(rides)|
      ensures ok ==> rides == Remove(old(rides), rideid) && db.lines == Persist(rides)
      ensures !ok ==> rides == old(rides) && db.lines == old(db.lines)
      ensures years == old(years) && selectedYear == old(selectedYear) && viewableRides == old(viewableRides)
    {
      if rideid >= |rides| {
        return false;
      }
      rides := Remove(rides, rideid);
      db.UpdateDb(rides);
      ok := true;
    }

    /** `RideDetailDialog.apply`: the ride being edited (`target`, its index in
        the list) takes the dialog's five values and the whole store is
        rewritten; with no ride, one row is appended. */
    method Apply(target: Option<nat>, entry: Entry)
      requires target.Some? ==> target.value < |rides|
      modifies this, db
      ensures target.Some? ==>
        && rides == old(rides)[target.value := Edited(old(rides)[target.value], entry)]
        && db.lines == Persist(rides)
      ensures target.None? ==>
        && rides == old(rides)
        && db.lines == old(db.lines) + [EncodeRow(entry.timestamp, entry.distance, entry.duration, entry.comment, entry.url)]
      ensures years == old(years) && selectedYear == old(selectedYear) && viewableRides == old(viewableRides)
    {
      match target
      case Some(i) =>
        rides := rides[i := Edited(rides[i], entry)];
        db.UpdateDb(rides);
      case None =>
        db.AddRide(entry.timestamp, entry.distance, entry.duration, entry.comment, entry.url);
    }
  }

  /** An added entry is read back as a new last ride, numbered by its row,
      with the dialog's values; the rows before it read as they did. */
  lemma AddedRideReadsBack(lines: seq<string>, entry: Entry)
    ensures Rows(lines + [EncodeRow(entry.timestamp, entry.distance, entry.duration, entry.comment, entry.url)])
         == Rows(lines) + [Ok(Ride(|lines|, entry.timestamp, entry.distance, entry.duration, entry.comment, entry.url))]
  {
    RowsAfterAppend(lines, Ride(0, entry.timestamp, entry.distance, entry.duration, entry.comment, entry.url));
  }

  /** After an edit the store reads back with the edited values in the ride's
      place and every other ride as it was. */
  lemma EditReadsBack(rides: seq<Ride>, i: nat, entry: Entry)
    requires i < |rides|
    requires forall j :: 0 <= j < |rides| ==> rides[j].id == j
    ensures var edited := rides[i := Edited(rides[i], entry)];
      && Collect(Rows(Persist(edited))) == Ok(edited)
      && EntryOf(edited[i]) == entry
      && forall j :: 0 <= j < |rides| && j != i ==> edited[j] == rides[j]
  {
    var edited := rides[i := Edited(rides[i], entry)];
    ReadBackPersist(edited);
    assert Renumber(edited) == edited;
  }
}
