/**
 * The ride store `~/.bikerides`: a sequence of CSV rows, one per ride, read by
 * `read_db_file` (bike.py:185-210), appended to by `add_ride` (bike.py:132-139)
 * and rewritten by `migrate` (bike.py:276-287).
 */
module RideStore {
  import opened Results
  import Floats
  import Timestamps
  import opened RideRecord

  // ----- the year selector (bike.py:192-197) -----

  /** The values the `year` argument of `read_db_file` takes: left out (`False`),
      an int, a list of ints, or a string (the GUI passes `'all'`). */
  datatype YearArg = Unset | Year(y: int) | YearList(ys: seq<int>) | YearText(text: string)

  predicate Falsy(year: YearArg) {
    match year
    case Unset => true
    case Year(y) => y == 0
    case YearList(ys) => ys == []
    case YearText(t) => t == ""
  }

  /** What `years` holds once bike.py:192-197 has run: a list of years, or a
      string, in which an int cannot be looked up. */
  datatype Selection = Only(years: seq<int>) | InText(text: string)

  function SelectionOf(year: YearArg, currentYear: int): (s: Selection)
    ensures Falsy(year) ==> s == Only([currentYear])
    ensures year.Year? && !Falsy(year) ==> s == Only([year.y])
    ensures year.YearList? && !Falsy(year) ==> s == Only(year.ys)
    ensures s.InText? <==> year.YearText? && !Falsy(year)
  {
    if Falsy(year) then Only([currentYear])
    else match year
      case Unset => Only([currentYear])
      case Year(y) => Only([y])
      case YearList(ys) => Only(ys)
      case YearText(t) => InText(t)
  }

  // ----- what read_db_file returns -----

  /** Each row read on its own, numbered by its position in the whole file. */
  function Rows(lines: seq<string>): (rows: seq<Result<Ride, LoadError>>)
    ensures |rows| == |lines|
  {
    seq(|lines|, i requires 0 <= i < |lines| => DecodeRide(lines[i], i))
  }

  /** Row `i` read is numbered `i`, whether it is a ride or an error. */
  predicate Numbered(rows: seq<Result<Ride, LoadError>>) {
    forall i :: 0 <= i < |rows| ==>
      (rows[i].Ok? ==> rows[i].value.id == i) && (rows[i].Err? ==> rows[i].error.row == i)
  }

  lemma RowsNumbered(lines: seq<string>)
    ensures Numbered(Rows(lines))
  {
  }

  /** The loop of bike.py:201-209 over rows already read: each ride is kept when
      its year is selected, and the first failure ends the load with no
      partial list. */
  function LoadRows(rows: seq<Result<Ride, LoadError>>, sel: Selection): (r: Result<seq<Ride>, LoadError>)
    ensures r.Ok? ==> |r.value| <= |rows|
    decreases |rows|
  {
    if rows == [] then Ok([])
    else
      var k := |rows| - 1;
      match LoadRows(rows[..k], sel)
      case Err(e) => Err(e)
      case Ok(rides) =>
        match rows[k]
        case Err(e) => Err(e)
        case Ok(r) =>
          match sel
          case InText(_) => Err(LoadError(NotAYear, k))
          case Only(ys) => Ok(if r.timestamp.year in ys then rides + [r] else rides)
  }

  /** `read_db_file` on the store `lines`. */
  function Load(lines: seq<string>, sel: Selection): Result<seq<Ride>, LoadError> {
    LoadRows(Rows(lines), sel)
  }

  /** Every ride, none filtered, or the first failure. */
  function Collect(rows: seq<Result<Ride, LoadError>>): Result<seq<Ride>, LoadError>
    decreases |rows|
  {
    if rows == [] then Ok([])
    else
      var k := |rows| - 1;
      match Collect(rows[..k])
      case Err(e) => Err(e)
      case Ok(rides) =>
        match rows[k]
        case Err(e) => Err(e)
        case Ok(r) => Ok(rides + [r])
  }

  /** The rides whose year is one of `ys`, in their order. */
  function Filter(rides: seq<Ride>, ys: seq<int>): (kept: seq<Ride>)
    ensures |kept| <= |rides|
    decreases |rides|
  {
    if rides == [] then []
    else
      var k := |rides| - 1;
      Filter(rides[..k], ys) + (if rides[k].timestamp.year in ys then [rides[k]] else [])
  }

  predicate IncreasingIds(rides: seq<Ride>) {
    forall i, j :: 0 <= i < j < |rides| ==> rides[i].id < rides[j].id
  }

  // ----- writing the whole store -----

  /** The rows written for `rides`, one per ride, in order. */
  function Persist(rides: seq<Ride>): (lines: seq<string>)
    ensures |lines| == |rides|
  {
    seq(|rides|, i requires 0 <= i < |rides| => EncodeRide(rides[i]))
  }

  /** The rides numbered by their new positions, as they are read back. */
  function Renumber(rides: seq<Ride>): (r: seq<Ride>)
    ensures |r| == |rides|
  {
    seq(|rides|, i requires 0 <= i < |rides| => rides[i].(id := i))
  }

  /** The store after `migrate`: the current year's rides rewritten, or the
      store unchanged when it cannot be read (the file is opened for writing
      only after the load). */
  function MigrateResult(lines: seq<string>, currentYear: int): seq<string> {
    match Load(lines, Only([currentYear]))
    case Ok(rides) => Persist(rides)
    case Err(_) => lines
  }

  // ----- the loader as a filter over every row -----

  /** A load with a list of years is the full read, filtered. */
  lemma {:induction false} LoadIsFilter(rows: seq<Result<Ride, LoadError>>, ys: seq<int>)
    ensures LoadRows(rows, Only(ys)) == (match Collect(rows)
                                         case Ok(all) => Ok(Filter(all, ys))
                                         case Err(e) => Err(e))
    decreases |rows|
  {
    if rows != [] {
      var k := |rows| - 1;
      LoadIsFilter(rows[..k], ys);
      match Collect(rows[..k])
      case Err(e) =>
      case Ok(all) =>
        match rows[k]
        case Err(e) =>
        case Ok(r) =>
          var all' := all + [r];
          assert all'[..|all|] == all && all'[|all|] == r;
          if r.timestamp.year in ys {
            assert Filter(all', ys) == Filter(all, ys) + [r];
          } else {
            assert Filter(all', ys) == Filter(all, ys) + [];
            assert Filter(all, ys) + [] == Filter(all, ys);
          }
    }
  }

  /** The full read holds exactly the rides of the rows. */
  lemma {:induction false} CollectRows(rows: seq<Result<Ride, LoadError>>)
    requires Collect(rows).Ok?
    ensures |Collect(rows).value| == |rows|
    ensures forall i :: 0 <= i < |rows| ==> rows[i] == Ok(Collect(rows).value[i])
    decreases |rows|
  {
    if rows != [] {
      var k := |rows| - 1;
      CollectRows(rows[..k]);
      assert forall i :: 0 <= i < k ==> rows[..k][i] == rows[i];
    }
  }

  /** The full read fails exactly when some row fails, and with the first failure. */
  lemma {:induction false} CollectError(rows: seq<Result<Ride, LoadError>>)
    ensures Collect(rows).Err? <==> exists i :: 0 <= i < |rows| && rows[i].Err?
    ensures Collect(rows).Err? ==>
      exists j :: 0 <= j < |rows| && rows[j] == Err(Collect(rows).error)
                  && forall i :: 0 <= i < j ==> rows[i].Ok?
    decreases |rows|
  {
    if rows != [] {
      var k := |rows| - 1;
      CollectError(rows[..k]);
      assert forall i :: 0 <= i < k ==> rows[..k][i] == rows[i];
    }
  }

  lemma {:induction false} FilterMembers(rides: seq<Ride>, ys: seq<int>, r: Ride)
    ensures r in Filter(rides, ys) <==> r in rides && r.timestamp.year in ys
    decreases |rides|
  {
    if rides != [] {
      var k := |rides| - 1;
      FilterMembers(rides[..k], ys, r);
      assert rides == rides[..k] + [rides[k]];
    }
  }

  lemma {:induction false} FilterIncreasing(rides: seq<Ride>, ys: seq<int>)
    requires IncreasingIds(rides)
    ensures IncreasingIds(Filter(rides, ys))
    decreases |rides|
  {
    if rides != [] {
      var k := |rides| - 1;
      var init := Filter(rides[..k], ys);
      FilterIncreasing(rides[..k], ys);
      forall j | 0 <= j < |init| ensures init[j].id < rides[k].id {
        FilterMembers(rides[..k], ys, init[j]);
        var i :| 0 <= i < k && rides[..k][i] == init[j];
        assert rides[i] == init[j];
      }
    }
  }

  /** What a load with a list of years returns: the rows whose year is
      selected, each numbered by its row in the whole file, in file order. */
  lemma LoadSelected(rows: seq<Result<Ride, LoadError>>, ys: seq<int>)
    requires Numbered(rows) && LoadRows(rows, Only(ys)).Ok?
    ensures var rides := LoadRows(rows, Only(ys)).value;
      && IncreasingIds(rides)
      && (forall j :: 0 <= j < |rides| ==>
            rides[j].id < |rows| && rides[j].timestamp.year in ys && rows[rides[j].id] == Ok(rides[j]))
      && (forall i :: 0 <= i < |rows| && rows[i].Ok? && rows[i].value.timestamp.year in ys ==> rows[i].value in rides)
  {
    LoadIsFilter(rows, ys);
    var all := Collect(rows).value;
    var rides := LoadRows(rows, Only(ys)).value;
    CollectRows(rows);
    assert forall i :: 0 <= i < |all| ==> all[i].id == i;
    FilterIncreasing(all, ys);
    forall j | 0 <= j < |rides|
      ensures rides[j].id < |rows| && rides[j].timestamp.year in ys && rows[rides[j].id] == Ok(rides[j])
    {
      FilterMembers(all, ys, rides[j]);
      var i :| 0 <= i < |all| && all[i] == rides[j];
    }
    forall i | 0 <= i < |rows| && rows[i].Ok? && rows[i].value.timestamp.year in ys
      ensures rows[i].value in rides
    {
      FilterMembers(all, ys, all[i]);
    }
  }

  /** A load fails exactly when some row cannot be read, and then reports the
      first such row. */
  lemma LoadFails(rows: seq<Result<Ride, LoadError>>, ys: seq<int>)
    requires Numbered(rows)
    ensures LoadRows(rows, Only(ys)).Err? <==> exists i :: 0 <= i < |rows| && rows[i].Err?
    ensures LoadRows(rows, Only(ys)).Err? ==>
      var e := LoadRows(rows, Only(ys)).error;
      && e.row < |rows|
      && rows[e.row] == Err(e)
      && forall i :: 0 <= i < e.row ==> rows[i].Ok?
  {
    LoadIsFilter(rows, ys);
    CollectError(rows);
  }

  /** A string selector cannot read a non-empty store: the first row either
      fails to read or fails the year test. An empty store gives no ride. */
  lemma {:induction false} LoadWithText(rows: seq<Result<Ride, LoadError>>, t: string)
    requires Numbered(rows)
    ensures rows == [] ==> LoadRows(rows, InText(t)) == Ok([])
    ensures rows != [] ==> LoadRows(rows, InText(t)).Err? && LoadRows(rows, InText(t)).error.row == 0
    decreases |rows|
  {
    if |rows| > 1 {
      LoadWithText(rows[..|rows| - 1], t);
    }
  }

  // ----- appending and rewriting -----

  /** The row `add_ride` appends reads back as its ride, numbered by its position. */
  lemma RowsAfterAppend(lines: seq<string>, r: Ride)
    ensures Rows(lines + [EncodeRide(r)]) == Rows(lines) + [Ok(r.(id := |lines|))]
  {
    var line := EncodeRide(r);
    RowsAppend(lines, line);
    DecodeEncodeRide(r, |lines|);
  }

  /** One more line read is one more row, numbered by its position. */
  lemma RowsAppend(lines: seq<string>, line: string)
    ensures Rows(lines + [line]) == Rows(lines) + [DecodeRide(line, |lines|)]
  {
    var a, b := Rows(lines + [line]), Rows(lines) + [DecodeRide(line, |lines|)];
    assert |a| == |b|;
    forall i | 0 <= i < |a| ensures a[i] == b[i] {
      assert (lines + [line])[i] == if i < |lines| then lines[i] else line;
    }
  }

  lemma LoadRowsAppend(rows: seq<Result<Ride, LoadError>>, ys: seq<int>, r: Ride)
    requires LoadRows(rows, Only(ys)).Ok?
    ensures LoadRows(rows + [Ok(r)], Only(ys))
         == Ok(LoadRows(rows, Only(ys)).value + (if r.timestamp.year in ys then [r] else []))
  {
    var rows' := rows + [Ok(r)];
    assert rows'[..|rows|] == rows && rows'[|rows|] == Ok(r);
    var rides := LoadRows(rows, Only(ys)).value;
    if r.timestamp.year !in ys {
      assert rides + [] == rides;
    }
  }

  /** Appending one row adds that ride, numbered by its row, when its year is
      selected, and leaves what the earlier rows give unchanged. */
  lemma LoadAfterAppend(lines: seq<string>, ys: seq<int>, r: Ride)
    requires Load(lines, Only(ys)).Ok?
    ensures Load(lines + [EncodeRide(r)], Only(ys))
         == Ok(Load(lines, Only(ys)).value
               + (if r.timestamp.year in ys then [r.(id := |lines|)] else []))
  {
    RowsAfterAppend(lines, r);
    LoadRowsAppend(Rows(lines), ys, r.(id := |lines|));
  }

  /** Reading back a rewritten store gives the same rides, renumbered 0, 1, ... */
  lemma PersistRows(rides: seq<Ride>)
    ensures Rows(Persist(rides)) == seq(|rides|, i requires 0 <= i < |rides| => Ok(Renumber(rides)[i]))
  {
    forall i | 0 <= i < |rides|
      ensures Rows(Persist(rides))[i] == Ok(Renumber(rides)[i])
    {
      DecodeEncodeRide(rides[i], i);
    }
  }

  lemma {:induction false} CollectOks(rides: seq<Ride>)
    ensures Collect(seq(|rides|, i requires 0 <= i < |rides| => Ok(rides[i]))) == Ok(rides)
    decreases |rides|
  {
    if rides != [] {
      var k := |rides| - 1;
      var rows: seq<Result<Ride, LoadError>> := seq(|rides|, i requires 0 <= i < |rides| => Ok(rides[i]));
      CollectOks(rides[..k]);
      assert rows[..k] == seq(k, i requires 0 <= i < k => Ok(rides[..k][i]));
      assert rides[..k] + [rides[k]] == rides;
    }
  }

  lemma ReadBackPersist(rides: seq<Ride>)
    ensures Collect(Rows(Persist(rides))) == Ok(Renumber(rides))
  {
    PersistRows(rides);
    CollectOks(Renumber(rides));
  }

  lemma PersistRenumber(rides: seq<Ride>)
    ensures Persist(Renumber(rides)) == Persist(rides)
  {
    forall i | 0 <= i < |rides| ensures Persist(Renumber(rides))[i] == Persist(rides)[i] {
      EncodeIgnoresId(rides[i], i);
    }
  }

  lemma {:induction false} FilterAll(rides: seq<Ride>, ys: seq<int>)
    requires forall i :: 0 <= i < |rides| ==> rides[i].timestamp.year in ys
    ensures Filter(rides, ys) == rides
    decreases |rides|
  {
    if rides != [] {
      var k := |rides| - 1;
      FilterAll(rides[..k], ys);
      assert rides[..k] + [rides[k]] == rides;
    }
  }

  /** Migrating twice in the same year writes the same rows as migrating once. */
  lemma MigrateIdempotent(lines: seq<string>, currentYear: int)
    ensures MigrateResult(MigrateResult(lines, currentYear), currentYear) == MigrateResult(lines, currentYear)
  {
    var ys := [currentYear];
    match Load(lines, Only(ys))
    case Err(_) =>
    case Ok(rides) =>
      RowsNumbered(lines);
      LoadSelected(Rows(lines), ys);
      var rn := Renumber(rides);
      ReadBackPersist(rides);
      LoadIsFilter(Rows(Persist(rides)), ys);
      FilterAll(rn, ys);
      PersistRenumber(rides);
  }

  /** After `migrate` the store reads back as the current year's rides, in
      the same order, renumbered from 0. */
  lemma MigrateReadsBack(lines: seq<string>, currentYear: int)
    requires Load(lines, Only([currentYear])).Ok?
    ensures Collect(Rows(MigrateResult(lines, currentYear))) == Ok(Renumber(Load(lines, Only([currentYear])).value))
  {
    ReadBackPersist(Load(lines, Only([currentYear])).value);
  }

  // ----- the file -----

  /** The file `RIDEDB`, as the sequence of its rows. */
  class RideFile {
    var lines: seq<string>

    constructor(rows: seq<string>)
      ensures lines == rows
    {
      lines := rows;
    }

    /** `add_ride`: the file is opened in append mode and one row is written. */
    method AddRide(timestamp: Timestamps.Stamp, distance: Floats.Float, duration: Floats.Float,
                   comment: string, url: string)
      modifies this
      ensures lines == old(lines) + [EncodeRow(timestamp, distance, duration, comment, url)]
    {
      lines := lines + [EncodeRow(timestamp, distance, duration, comment, url)];
    }

    /** `read_db_file(year=year)` with `currentYear` standing for `time.localtime().tm_year`. */
    method ReadDbFile(year: YearArg, currentYear: int) returns (r: Result<seq<Ride>, LoadError>)
      ensures r == Load(lines, SelectionOf(year, currentYear))
    {
      var years := SelectionOf(year, currentYear);
      ghost var rows := Rows(lines);
      var rides: seq<Ride> := [];
      var id := 0;
      while id < |lines|
        invariant 0 <= id <= |lines|
        invariant LoadRows(rows[..id], years) == Ok(rides)
      {
        assert rows[..id + 1][..id] == rows[..id];
        var ride := DecodeRide(lines[id], id);
        assert rows[id] == ride;
        if ride.Err? {
          LoadStops(rows, id + 1, years);
          return Err(ride.error);
        }
        if years.InText? {
          LoadStops(rows, id + 1, years);
          return Err(LoadError(NotAYear, id));
        }
        if ride.value.timestamp.year in years.years {
          rides := rides + [ride.value];
        }
        id := id + 1;
      }
      assert rows[..|lines|] == rows;
      return Ok(rides);
    }

    /** `migrate`: reads the current year's rides, then rewrites the file with
        them row by row. */
    method Migrate(currentYear: int) returns (r: Result<seq<Ride>, LoadError>)
      modifies this
      ensures r == Load(old(lines), Only([currentYear]))
      ensures lines == MigrateResult(old(lines), currentYear)
    {
      r := ReadDbFile(Unset, currentYear);
      if r.Err? {
        return;
      }
      WriteRows(r.value);
    }

    /** The file truncated, then one `writerow` per ride. */
    method WriteRows(rides: seq<Ride>)
      modifies this
      ensures lines == Persist(rides)
    {
      lines := [];
      var i := 0;
      while i < |rides|
        invariant 0 <= i <= |rides|
        invariant lines == Persist(rides)[..i]
      {
        var row := EncodeRide(rides[i]);
        PrefixStep(Persist(rides), i);
        lines := lines + [row];
        i := i + 1;
      }
      assert Persist(rides)[..|rides|] == Persist(rides);
    }

    /** The `update_db` the GUI calls: the file rewritten with `rides`. */
    method UpdateDb(rides: seq<Ride>)
      modifies this
      ensures lines == Persist(rides)
    {
      lines := Persist(rides);
    }
  }

  /** A prefix one element longer is the shorter prefix and that element. */
  lemma PrefixStep<T>(s: seq<T>, i: nat)
    requires i < |s|
    ensures s[..i + 1] == s[..i] + [s[i]]
  {
  }

  /** Once a prefix of the rows fails to load, all of them fail the same way. */
  lemma {:induction false} LoadStops(rows: seq<Result<Ride, LoadError>>, n: nat, sel: Selection)
    requires n <= |rows| && LoadRows(rows[..n], sel).Err?
    ensures LoadRows(rows, sel) == LoadRows(rows[..n], sel)
    decreases |rows| - n
  {
    if n < |rows| {
      assert rows[..n + 1][..n] == rows[..n];
      LoadStops(rows, n + 1, sel);
    } else {
      assert rows[..n] == rows;
    }
  }
}
