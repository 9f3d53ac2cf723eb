/** The station-year inventory: the one-row summary `inventory_stations_year`
    (clean_and_export_op_file.py) makes of a cleaned station-year file, and
    the bookkeeping update_GSOD.py does on the inventory table: the upsert of
    a summary, the pruning of a year's rows whose station left the listing,
    the choice of the stale files of a year by a left merge on the station
    ID, and the seeding of a fresh inventory from NOAA's copy (and the column
    initialisation of the earlier draft, download_gsod.py).

    The table is a sequence of rows, each with its index label
    (`Station-Year`). Rows are generic column maps, so a row appended
    without some inventory column reads NaN there, as in pandas. */
module Inventory {
  import opened Common
  import opened Frames

  /** An inventory row and its index label. */
  datatype Keyed = Keyed(key: Cell, row: Row)

  type Table = seq<Keyed>

  // ---------------------------------------------------------------------
  // The station-year summary

  /** The twelve month columns, in calendar order. */
  const MonthOrder: seq<Col> := [Jan, Feb, Mar, Apr, May, Jun, Jul, Aug, Sep, Oct, Nov, Dec]

  const MonthColumns: set<Col> := {Jan, Feb, Mar, Apr, May, Jun, Jul, Aug, Sep, Oct, Nov, Dec}

  /** The `Month` values of the twelve months, in calendar order. */
  const MonthCodeOrder: seq<string> := ["01", "02", "03", "04", "05", "06", "07", "08", "09", "10", "11", "12"]

  const MonthCodes: set<string> := {"01", "02", "03", "04", "05", "06", "07", "08", "09", "10", "11", "12"}

  /** The `Month` value a month column counts. */
  function MonthCode(c: Col): string {
    match c
    case Jan => "01" case Feb => "02" case Mar => "03" case Apr => "04"
    case May => "05" case Jun => "06" case Jul => "07" case Aug => "08"
    case Sep => "09" case Oct => "10" case Nov => "11" case Dec => "12"
    case _ => ""
  }

  /** What `count()` counts in a row of a `groupby('Month')` group: its
      non-NaN cells, in every column but `Month` itself. */
  function Populated(r: Row): nat {
    |set c | c in r.Keys && c != Month && r[c] != Null|
  }

  /** The monthly count of month `m`: the populated cells of the rows whose
      `Month` is `m`, summed. */
  function MonthCount(rows: seq<Row>, m: string): nat {
    if |rows| == 0 then 0
    else
      var last := rows[|rows| - 1];
      MonthCount(rows[..|rows| - 1], m) + (if Get(last, Month) == Text(m) then Populated(last) else 0)
  }

  /** The populated cells of the rows whose `Month` is one of `ms`. */
  function CountAmong(rows: seq<Row>, ms: set<string>): nat {
    if |rows| == 0 then 0
    else
      var last := rows[|rows| - 1];
      var m := Get(last, Month);
      CountAmong(rows[..|rows| - 1], ms) + (if m.Text? && m.s in ms then Populated(last) else 0)
  }

  /** The month groups: every non-NaN `Month` value (groupby drops NaN keys). */
  function MonthKeys(rows: seq<Row>): set<string> {
    set i | 0 <= i < |rows| && Get(rows[i], Month).Text? :: Get(rows[i], Month).s
  }

  /** The summary row of a station-year: month column JAN ... DEC holds the
      monthly count of "01" ... "12", and USAF, WBAN and year are copied
      from the first row. */
  function SummaryRow(rows: seq<Row>): (s: Row)
    requires |rows| > 0
    ensures s.Keys == SummaryColumns
    ensures forall c :: c in MonthColumns ==> s[c] == Int(MonthCount(rows, MonthCode(c)))
    ensures s[UsafIdCode] == Get(rows[0], UsafIdCode) && s[WbanIdCode] == Get(rows[0], WbanIdCode)
    ensures s[Year] == Get(rows[0], Year)
  {
    SummaryColumnsHold();
    map c | c in SummaryColumns :: if c in MonthColumns then Int(MonthCount(rows, MonthCode(c))) else Get(rows[0], c)
  }

  /** The columns of a summary row. */
  const SummaryColumns: set<Col> := MonthColumns + {UsafIdCode, WbanIdCode, Year}

  /** A summary row has the month columns and the three copied ones, and
      none of the inventory's `ID`, `USAF`, `WBAN`, `YEAR` and `Last_Updated`. */
  lemma SummaryColumnsHold()
    ensures MonthColumns <= SummaryColumns
    ensures UsafIdCode in SummaryColumns && WbanIdCode in SummaryColumns && Year in SummaryColumns
    ensures UsafIdCode !in MonthColumns && WbanIdCode !in MonthColumns && Year !in MonthColumns
    ensures Id !in SummaryColumns && YearKey !in SummaryColumns && LastUpdated !in SummaryColumns
    ensures Usaf !in SummaryColumns && Wban !in SummaryColumns
  {
  }

  /** `inventory_stations_year`: the label is `ID_Code + '-' + Year` of the
      first row and the row its summary row. It raises on an empty frame,
      on a NaN label part, and unless the month groups can be renamed
      JAN ... DEC. */
  function InventoryStationsYear(rows: seq<Row>): (r: Result<Keyed>)
    ensures r.Ok? <==> |rows| > 0 && Get(rows[0], IdCode).Text? && Get(rows[0], Year).Text?
                       && MonthKeys(rows) == MonthCodes
    ensures r.Ok? ==> r.value.key == Text(Get(rows[0], IdCode).s + "-" + Get(rows[0], Year).s)
    ensures r.Ok? ==> r.value.row == SummaryRow(rows)
  {
    if |rows| == 0 then Err(EmptyFrame)
    else
      var id, y := Get(rows[0], IdCode), Get(rows[0], Year);
      if !(id.Text? && y.Text?) then Err(BadCell("inventory_stations_year"))
      else if MonthKeys(rows) != MonthCodes then Err(MonthGroups)
      else Ok(Keyed(Text(id.s + "-" + y.s), SummaryRow(rows)))
  }

  /** Month column `i` counts month code `i`, and the twelve codes are the
      distinct month values. */
  lemma MonthOrderCodes()
    ensures forall i :: 0 <= i < 12 ==> MonthOrder[i] in MonthColumns && MonthCode(MonthOrder[i]) == MonthCodeOrder[i]
  {
  }

  lemma MonthCodeOrderDistinct()
    ensures forall i, j :: 0 <= i < j < |MonthCodeOrder| ==> MonthCodeOrder[i] != MonthCodeOrder[j]
    ensures (set m | m in MonthCodeOrder) == MonthCodes
  {
  }

  /** The sum of the monthly counts of the months `ms`. */
  function SumCounts(rows: seq<Row>, ms: seq<string>): nat {
    if |ms| == 0 then 0 else SumCounts(rows, ms[..|ms| - 1]) + MonthCount(rows, ms[|ms| - 1])
  }

  /** Adding a month to a set of months adds its count. */
  lemma {:induction false} CountAmongAdd(rows: seq<Row>, ms: set<string>, m: string)
    requires m !in ms
    ensures CountAmong(rows, ms + {m}) == CountAmong(rows, ms) + MonthCount(rows, m)
  {
    if |rows| > 0 {
      CountAmongAdd(rows[..|rows| - 1], ms, m);
    }
  }

  /** The counts of distinct months add up to the populated cells of the
      rows in those months: each cell is counted once, in its row's month. */
  lemma {:induction false} SumCountsAmong(rows: seq<Row>, ms: seq<string>)
    requires forall i, j :: 0 <= i < j < |ms| ==> ms[i] != ms[j]
    ensures SumCounts(rows, ms) == CountAmong(rows, set m | m in ms)
  {
    if |ms| == 0 {
      assert (set x | x in ms) == {};
      CountAmongNone(rows);
    } else {
      var init, m := ms[..|ms| - 1], ms[|ms| - 1];
      SumCountsAmong(rows, init);
      assert (set x | x in ms) == (set x | x in init) + {m};
      CountAmongAdd(rows, (set x | x in init), m);
    }
  }

  lemma {:induction false} CountAmongNone(rows: seq<Row>)
    ensures CountAmong(rows, {}) == 0
  {
    if |rows| > 0 {
      CountAmongNone(rows[..|rows| - 1]);
    }
  }

  /** Every row whose month is one of `ms` contributes all its populated
      cells. */
  lemma {:induction false} CountAmongAll(rows: seq<Row>, ms: set<string>)
    requires forall i :: 0 <= i < |rows| ==> Get(rows[i], Month).Text? && Get(rows[i], Month).s in ms
    ensures CountAmong(rows, ms) == TotalPopulated(rows)
  {
    if |rows| > 0 {
      CountAmongAll(rows[..|rows| - 1], ms);
    }
  }

  /** The populated cells of all rows. */
  function TotalPopulated(rows: seq<Row>): nat {
    if |rows| == 0 then 0 else TotalPopulated(rows[..|rows| - 1]) + Populated(rows[|rows| - 1])
  }

  /** The twelve counts of a summary add up to the populated cells of every
      row whose month is NaN-free: no cell is counted twice or dropped. */
  lemma SummaryTotal(rows: seq<Row>)
    requires InventoryStationsYear(rows).Ok?
    requires forall i :: 0 <= i < |rows| ==> Get(rows[i], Month).Text?
    ensures SumCounts(rows, MonthCodeOrder) == TotalPopulated(rows)
  {
    MonthCodeOrderDistinct();
    SumCountsAmong(rows, MonthCodeOrder);
    forall i | 0 <= i < |rows|
      ensures Get(rows[i], Month).s in MonthCodes
    {
      assert Get(rows[i], Month).s in MonthKeys(rows);
    }
    CountAmongAll(rows, MonthCodes);
  }

  /** The counts are of every non-NaN cell, not only of the measurements: a
      row whose three ID columns are set contributes at least three. */
  lemma CountsIdColumns(r: Row)
    requires Get(r, IdCode).Text? && Get(r, UsafIdCode).Text? && Get(r, WbanIdCode).Text?
    ensures Populated(r) >= 3
  {
    var s := set c | c in r.Keys && c != Month && r[c] != Null;
    assert {IdCode, UsafIdCode, WbanIdCode} <= s;
    assert |{IdCode, UsafIdCode, WbanIdCode}| == 3;
    SubsetSize({IdCode, UsafIdCode, WbanIdCode}, s);
  }

  lemma {:induction false} SubsetSize(a: set<Col>, b: set<Col>)
    requires a <= b
    ensures |a| <= |b|
  {
    if a != {} {
      var x :| x in a;
      SubsetSize(a - {x}, b - {x});
    }
  }

  // ---------------------------------------------------------------------
  // The upsert

  /** `inventory[inventory.index.values != key]`. */
  function Without(t: Table, key: Cell): (r: Table)
    ensures forall x :: x in r <==> x in t && x.key != key
    ensures |r| <= |t|
  {
    if |t| == 0 then []
    else if t[0].key == key then Without(t[1..], key)
    else [t[0]] + Without(t[1..], key)
  }

  /** update_year's upsert: every row with the summary's label is removed,
      then the summary is appended. */
  function Upsert(t: Table, s: Keyed): Table {
    Without(t, s.key) + [s]
  }

  /** How many rows carry label `key`. */
  function KeyCount(t: Table, key: Cell): nat {
    if |t| == 0 then 0 else (if t[0].key == key then 1 else 0) + KeyCount(t[1..], key)
  }

  predicate UniqueKeys(t: Table) {
    forall i, j :: 0 <= i < j < |t| ==> t[i].key != t[j].key
  }

  lemma {:induction false} KeyCountWithout(t: Table, key: Cell, k: Cell)
    ensures KeyCount(Without(t, key), k) == if k == key then 0 else KeyCount(t, k)
  {
    if |t| > 0 {
      KeyCountWithout(t[1..], key, k);
      if t[0].key != key {
        assert ([t[0]] + Without(t[1..], key))[1..] == Without(t[1..], key);
      }
    }
  }

  lemma {:induction false} KeyCountAppend(t: Table, s: Keyed, k: Cell)
    ensures KeyCount(t + [s], k) == KeyCount(t, k) + (if s.key == k then 1 else 0)
  {
    if |t| > 0 {
      assert (t + [s])[1..] == t[1..] + [s];
      KeyCountAppend(t[1..], s, k);
    }
  }

  /** After an upsert the summary's label is on exactly one row, the
      summary itself, and every other label is on as many rows as before. */
  lemma UpsertCounts(t: Table, s: Keyed, k: Cell)
    ensures KeyCount(Upsert(t, s), k) == if k == s.key then 1 else KeyCount(t, k)
    ensures Upsert(t, s)[|Upsert(t, s)| - 1] == s
  {
    KeyCountWithout(t, s.key, k);
    KeyCountAppend(Without(t, s.key), s, k);
  }

  /** The rows with other labels are kept, in order. */
  lemma {:induction false} WithoutUpsert(t: Table, s: Keyed)
    ensures Without(Upsert(t, s), s.key) == Without(t, s.key)
  {
    WithoutAppend(Without(t, s.key), s.key, s);
    WithoutTwice(t, s.key);
  }

  lemma {:induction false} WithoutAppend(t: Table, key: Cell, s: Keyed)
    ensures Without(t + [s], key) == Without(t, key) + Without([s], key)
  {
    if |t| > 0 {
      assert (t + [s])[1..] == t[1..] + [s];
      WithoutAppend(t[1..], key, s);
    } else {
      assert t + [s] == [s];
    }
  }

  lemma {:induction false} WithoutTwice(t: Table, key: Cell)
    ensures Without(Without(t, key), key) == Without(t, key)
  {
    if |t| > 0 {
      WithoutTwice(t[1..], key);
      if t[0].key != key {
        assert ([t[0]] + Without(t[1..], key))[1..] == Without(t[1..], key);
      }
    }
  }

  /** Repeating an upsert with the same summary changes nothing. */
  lemma UpsertIdempotent(t: Table, s: Keyed)
    ensures Upsert(Upsert(t, s), s) == Upsert(t, s)
  {
    WithoutUpsert(t, s);
  }

  lemma {:induction false} WithoutUnique(t: Table, key: Cell)
    requires UniqueKeys(t)
    ensures UniqueKeys(Without(t, key))
  {
    if |t| > 0 {
      assert UniqueKeys(t[1..]) by {
        forall i, j | 0 <= i < j < |t[1..]| ensures t[1..][i].key != t[1..][j].key {
          assert t[1..][i] == t[i + 1] && t[1..][j] == t[j + 1];
        }
      }
      WithoutUnique(t[1..], key);
      if t[0].key != key {
        var w := Without(t[1..], key);
        forall x | x in w ensures x.key != t[0].key {
          var j :| 0 <= j < |t[1..]| && t[1..][j] == x;
          assert t[j + 1] == x;
        }
        var u := [t[0]] + w;
        forall i, j | 0 <= i < j < |u| ensures u[i].key != u[j].key {
          assert u[j] == w[j - 1];
          if i > 0 {
            assert u[i] == w[i - 1];
          }
        }
      }
    }
  }

  /** The upsert keeps an inventory free of duplicate labels. */
  lemma UpsertKeepsUnique(t: Table, s: Keyed)
    requires UniqueKeys(t)
    ensures UniqueKeys(Upsert(t, s))
  {
    var w := Without(t, s.key);
    WithoutUnique(t, s.key);
    var u := w + [s];
    forall i, j | 0 <= i < j < |u| ensures u[i].key != u[j].key {
      assert u[i] == w[i];
      if j < |w| {
        assert u[j] == w[j];
      } else {
        assert w[i] in w;
      }
    }
  }

  // ---------------------------------------------------------------------
  // Pruning a year and choosing its stale files

  /** `isin` on a cell: a text cell whose string is listed. */
  predicate Listed(c: Cell, ids: set<string>) {
    c.Text? && c.s in ids
  }

  /** Whether an inventory row belongs to `year` (`inventory.YEAR == str(year)`). */
  predicate OfYear(x: Keyed, year: string) {
    Get(x.row, YearKey) == Text(year)
  }

  /** get_stations_to_update_for_year's pruning: a row is kept when it is
      not of the year or its station is in the year's listing. */
  function PruneYear(t: Table, year: string, ids: set<string>): (r: Table)
    ensures forall x :: x in r <==> x in t && (!OfYear(x, year) || Listed(Get(x.row, Id), ids))
  {
    if |t| == 0 then []
    else
      var rest := PruneYear(t[1..], year, ids);
      if !OfYear(t[0], year) || Listed(Get(t[0].row, Id), ids) then [t[0]] + rest else rest
  }

  /** An empty listing removes every row of the year and no other. */
  lemma PruneEmptyListing(t: Table, year: string)
    ensures forall x :: x in PruneYear(t, year, {}) <==> x in t && !OfYear(x, year)
  {
  }

  /** One entry of a year's NOAA listing, with the station ID taken from its
      file name. */
  datatype NoaaFile = NoaaFile(file: string, modified: int, id: string)

  /** `Modified > Last_Updated`: false against NaT (or any non-time cell). */
  predicate Later(modified: int, lastUpdated: Cell) {
    lastUpdated.Time? && modified > lastUpdated.t
  }

  /** The inventory rows of `year` for station `id`. */
  function Matches(t: Table, year: string, id: string): (r: Table)
    ensures forall x :: x in r <==> x in t && OfYear(x, year) && Get(x.row, Id) == Text(id)
  {
    if |t| == 0 then []
    else
      var rest := Matches(t[1..], year, id);
      if OfYear(t[0], year) && Get(t[0].row, Id) == Text(id) then [t[0]] + rest else rest
  }

  /** One row of the left merge: a file and the `Last_Updated` it is
      compared with. */
  datatype Merged = Merged(f: NoaaFile, lastUpdated: Cell)

  /** The merged rows of one file: one per matching inventory row, or a
      single NaT row when there is none. */
  function MergedOf(f: NoaaFile, ms: Table): (r: seq<Merged>)
    ensures |ms| == 0 ==> r == [Merged(f, Null)]
    ensures |ms| > 0 ==> forall m :: m in r <==> exists x :: x in ms && m == Merged(f, Get(x.row, LastUpdated))
  {
    if |ms| == 0 then [Merged(f, Null)] else MergedRows(f, ms)
  }

  function MergedRows(f: NoaaFile, ms: Table): (r: seq<Merged>)
    ensures forall m :: m in r <==> exists x :: x in ms && m == Merged(f, Get(x.row, LastUpdated))
  {
    if |ms| == 0 then []
    else
      var rest := MergedRows(f, ms[1..]);
      assert forall x :: x in ms[1..] ==> x in ms;
      assert forall x :: x in ms ==> x == ms[0] || x in ms[1..];
      [Merged(f, Get(ms[0].row, LastUpdated))] + rest
  }

  /** `NOAA_files.merge(inventory[inventory.YEAR == str(year)], how='left', on='ID')`. */
  function MergeLeft(files: seq<NoaaFile>, t: Table, year: string): seq<Merged> {
    if |files| == 0 then []
    else MergedOf(files[0], Matches(t, year, files[0].id)) + MergeLeft(files[1..], t, year)
  }

  /** The merged rows whose file is newer than its inventory row. */
  function StaleRows(m: seq<Merged>): (r: seq<Merged>)
    ensures forall x :: x in r <==> x in m && Later(x.f.modified, x.lastUpdated)
  {
    if |m| == 0 then []
    else
      var rest := StaleRows(m[1..]);
      if Later(m[0].f.modified, m[0].lastUpdated) then [m[0]] + rest else rest
  }

  /** get_stations_to_update_for_year's `files_to_update`. */
  function StaleFiles(files: seq<NoaaFile>, t: Table, year: string): seq<Merged> {
    StaleRows(MergeLeft(files, t, year))
  }

  lemma {:induction false} MergeLeftMember(files: seq<NoaaFile>, t: Table, year: string, m: Merged)
    ensures m in MergeLeft(files, t, year) <==>
      m.f in files &&
      ((Matches(t, year, m.f.id) == [] && m.lastUpdated == Null) ||
       exists x :: x in Matches(t, year, m.f.id) && m.lastUpdated == Get(x.row, LastUpdated))
  {
    if |files| > 0 {
      MergeLeftMember(files[1..], t, year, m);
      assert forall g :: g in files <==> g == files[0] || g in files[1..];
    }
  }

  /** A file is chosen exactly when some inventory row of its station and
      year holds a `Last_Updated` strictly older than the file: a file with
      no inventory row (compared with NaT) is never chosen, nor is one whose
      rows are all as recent as it. */
  lemma StaleFilesSpec(files: seq<NoaaFile>, t: Table, year: string, f: NoaaFile)
    ensures (exists lu :: Merged(f, lu) in StaleFiles(files, t, year)) <==>
      f in files && exists x :: x in t && OfYear(x, year) && Get(x.row, Id) == Text(f.id)
                                && Later(f.modified, Get(x.row, LastUpdated))
  {
    var ms := Matches(t, year, f.id);
    if exists lu :: Merged(f, lu) in StaleFiles(files, t, year) {
      var lu :| Merged(f, lu) in StaleFiles(files, t, year);
      MergeLeftMember(files, t, year, Merged(f, lu));
    }
    if f in files && exists x :: x in t && OfYear(x, year) && Get(x.row, Id) == Text(f.id)
                                 && Later(f.modified, Get(x.row, LastUpdated)) {
      var x :| x in t && OfYear(x, year) && Get(x.row, Id) == Text(f.id) && Later(f.modified, Get(x.row, LastUpdated));
      MergeLeftMember(files, t, year, Merged(f, Get(x.row, LastUpdated)));
    }
  }

  /** A first-time station (no inventory row for it in that year) is never
      chosen, however new its file. */
  lemma FirstTimeNeverStale(files: seq<NoaaFile>, t: Table, year: string, f: NoaaFile)
    requires forall x :: x in t && OfYear(x, year) ==> Get(x.row, Id) != Text(f.id)
    ensures forall lu :: Merged(f, lu) !in StaleFiles(files, t, year)
  {
    StaleFilesSpec(files, t, year, f);
  }

  /** A file as recent as its inventory rows is not fetched again. */
  lemma EqualNotStale(files: seq<NoaaFile>, t: Table, year: string, f: NoaaFile)
    requires forall x :: x in t && OfYear(x, year) && Get(x.row, Id) == Text(f.id) ==>
      Get(x.row, LastUpdated) == Time(f.modified)
    ensures forall lu :: Merged(f, lu) !in StaleFiles(files, t, year)
  {
    StaleFilesSpec(files, t, year, f);
  }

  /** A summary row holds none of the inventory's `ID`, `YEAR` and
      `Last_Updated` columns, so once appended it belongs to no year's
      pruning, matches no file in the merge, and its station-year is never
      chosen again through it. */
  lemma SummaryRowUnmatched(rows: seq<Row>, year: string, ids: set<string>, t: Table)
    requires InventoryStationsYear(rows).Ok?
    ensures var s := InventoryStationsYear(rows).value;
      && Get(s.row, Id) == Null && Get(s.row, YearKey) == Null && Get(s.row, LastUpdated) == Null
      && (s in t ==> s in PruneYear(t, year, ids))
  {
    SummaryColumnsHold();
  }

  /** No inventory row of `year` carries station `id`: a file of that
      station and year is compared with NaT in the merge. */
  predicate NoRowFor(t: Table, year: string, id: string) {
    forall x :: x in t && OfYear(x, year) ==> Get(x.row, Id) != Text(id)
  }

  /** The upsert of a station-year's summary removes the rows labelled
      with it, and the summary itself carries no `ID`: when every row of
      the station and year bears that label (as `ID-YEAR` seeded rows do),
      none is left. */
  lemma UpsertForgetsStation(t: Table, rows: seq<Row>, year: string, id: string)
    requires InventoryStationsYear(rows).Ok?
    requires forall x :: x in t && OfYear(x, year) && Get(x.row, Id) == Text(id) ==>
      x.key == InventoryStationsYear(rows).value.key
    ensures NoRowFor(Upsert(t, InventoryStationsYear(rows).value), year, id)
  {
    var s := InventoryStationsYear(rows).value;
    SummaryColumnsHold();
    forall x | x in Upsert(t, s) && OfYear(x, year)
      ensures Get(x.row, Id) != Text(id)
    {
      if x != s {
        assert x in Without(t, s.key);
      }
    }
  }

  /** An upsert adds no row of any station and year. */
  lemma UpsertKeepsNoRow(t: Table, rows: seq<Row>, year: string, id: string)
    requires InventoryStationsYear(rows).Ok? && NoRowFor(t, year, id)
    ensures NoRowFor(Upsert(t, InventoryStationsYear(rows).value), year, id)
  {
    var s := InventoryStationsYear(rows).value;
    SummaryColumnsHold();
    forall x | x in Upsert(t, s) && OfYear(x, year)
      ensures Get(x.row, Id) != Text(id)
    {
      if x != s {
        assert x in Without(t, s.key);
      }
    }
  }

  // ---------------------------------------------------------------------
  // A fresh inventory

  /** The columns `load_isd_inventory` keeps. */
  const InventoryColumns: set<Col> := {Id, Usaf, Wban, YearKey, LastUpdated,
    Jan, Feb, Mar, Apr, May, Jun, Jul, Aug, Sep, Oct, Nov, Dec}

  /** `inventory[cols]` on one row (a column absent from the row reads NaN). */
  function Project(r: Row): (p: Row)
    ensures p.Keys == InventoryColumns
  {
    map c | c in InventoryColumns :: Get(r, c)
  }

  /** The epoch, `pd.to_datetime(0)`. */
  const Epoch: int := 0

  /** A row of NOAA's isd-inventory as `load_isd_inventory` seeds it: `ID`
      is `USAF-WBAN`, the label `ID-YEAR`, and `Last_Updated` the epoch. */
  function SeedRow(r: Row): (k: Keyed)
    ensures Get(k.row, Id) == Joined(Get(r, Usaf), Get(r, Wban))
    ensures k.key == Joined(Joined(Get(r, Usaf), Get(r, Wban)), Get(r, YearKey))
    ensures Get(k.row, LastUpdated) == Time(Epoch)
    ensures forall c :: c in InventoryColumns && c != Id && c != LastUpdated ==> Get(k.row, c) == Get(r, c)
  {
    var id := Joined(Get(r, Usaf), Get(r, Wban));
    Keyed(Joined(id, Get(r, YearKey)), Project(r[Id := id][LastUpdated := Time(Epoch)]))
  }

  /** update_GSOD.py's `load_isd_inventory`: the stored inventory when there
      is one (already parsed), NOAA's copy seeded otherwise. */
  function LoadIsdInventory(stored: Option<Table>, noaa: seq<Row>): (t: Table)
    ensures stored.Some? ==> (|t| == |stored.value| &&
      forall i :: 0 <= i < |t| ==> t[i] == Keyed(stored.value[i].key, Project(stored.value[i].row)))
    ensures stored.None? ==> (|t| == |noaa| && forall i :: 0 <= i < |t| ==> t[i] == SeedRow(noaa[i]))
  {
    if stored.Some? then
      seq(|stored.value|, i requires 0 <= i < |stored.value| => Keyed(stored.value[i].key, Project(stored.value[i].row)))
    else
      seq(|noaa|, i requires 0 <= i < |noaa| => SeedRow(noaa[i]))
  }

  /** On a seeded inventory every file of a listed station-year that NOAA
      has modified since the epoch is chosen. */
  lemma SeededAllStale(noaa: seq<Row>, files: seq<NoaaFile>, year: string, i: nat, f: NoaaFile)
    requires i < |noaa| && f in files && f.modified > Epoch
    requires Get(noaa[i], YearKey) == Text(year) && Joined(Get(noaa[i], Usaf), Get(noaa[i], Wban)) == Text(f.id)
    ensures Merged(f, Time(Epoch)) in StaleFiles(files, LoadIsdInventory(None, noaa), year)
  {
    var t := LoadIsdInventory(None, noaa);
    var x := t[i];
    assert x in t && OfYear(x, year) && Get(x.row, Id) == Text(f.id);
    MergeLeftMember(files, t, year, Merged(f, Time(Epoch)));
  }

  /** The column initialisation of download_gsod.py's `load_isd_inventory`
      on one row: `ID` only if the frame has no such column, `Last_Updated`
      only if it has none. */
  function InitRow(cols: set<Col>, r: Row): Row {
    var r1 := if Id in cols then r else r[Id := Joined(Get(r, Usaf), Get(r, Wban))];
    if LastUpdated in cols then r1 else r1[LastUpdated := Time(Epoch)]
  }

  function InitRows(cols: set<Col>, rs: seq<Row>): (r: seq<Row>)
    ensures |r| == |rs| && forall i :: 0 <= i < |rs| ==> r[i] == InitRow(cols, rs[i])
  {
    seq(|rs|, i requires 0 <= i < |rs| => InitRow(cols, rs[i]))
  }

  /** Existing cells are never overwritten, the two columns are present
      afterwards, and a second initialisation changes nothing. */
  lemma InitRowSpec(cols: set<Col>, r: Row)
    requires r.Keys == cols
    ensures forall c :: c in cols ==> InitRow(cols, r)[c] == r[c]
    ensures InitRow(cols, r).Keys == cols + {Id, LastUpdated}
    ensures Id !in cols ==> InitRow(cols, r)[Id] == Joined(Get(r, Usaf), Get(r, Wban))
    ensures LastUpdated !in cols ==> InitRow(cols, r)[LastUpdated] == Time(Epoch)
    ensures InitRow(cols + {Id, LastUpdated}, InitRow(cols, r)) == InitRow(cols, r)
  {
  }

  /** download_gsod.py's `load_isd_inventory` after reading: the `ID` column
      is inserted and `Last_Updated` set to the epoch, each only when the
      frame lacks it. Building `ID` reads `USAF` and `WBAN`, so it fails
      (the KeyError) when the frame lacks `ID` and either code column; the
      frame is then unchanged. */
  method InitInventoryColumns(inv: Frame) returns (ok: bool)
    requires inv.Valid()
    modifies inv
    ensures inv.Valid()
    ensures ok <==> Id in old(inv.columns) || (Usaf in old(inv.columns) && Wban in old(inv.columns))
    ensures ok ==> inv.columns == old(inv.columns) + {Id, LastUpdated}
    ensures ok ==> inv.order == WithColumn(if Id in old(inv.columns) then old(inv.order) else [Id] + old(inv.order), LastUpdated)
    ensures ok ==> inv.rows == InitRows(old(inv.columns), old(inv.rows))
    ensures !ok ==> unchanged(inv)
  {
    ghost var cols := inv.columns;
    ghost var rs := inv.rows;
    if Id !in inv.columns && (Usaf !in inv.columns || Wban !in inv.columns) {
      return false;
    }
    ok := true;
    if Id !in inv.columns {
      var r0 := inv.rows;
      inv.rows := seq(|r0|, i requires 0 <= i < |r0| => r0[i][Id := Joined(Get(r0[i], Usaf), Get(r0[i], Wban))]);
      inv.columns := inv.columns + {Id};
      inv.order := [Id] + inv.order;
    }
    if LastUpdated !in inv.columns {
      var r1 := inv.rows;
      inv.rows := seq(|r1|, i requires 0 <= i < |r1| => r1[i][LastUpdated := Time(Epoch)]);
      inv.columns := inv.columns + {LastUpdated};
      inv.order := inv.order + [LastUpdated];
    }
    assert inv.rows == InitRows(cols, rs);
  }
}
