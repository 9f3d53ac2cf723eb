/** Staleness detection (update_GSOD.py, and the parallel draft in
    download_gsod.py): which years of NOAA's archive changed since they
    were last logged, which files of a year NOAA lists, and which station a
    file name or a stored object key belongs to.

    Listings are the parsed rows of NOAA's HTML directory pages, in page
    order, with their timestamps already parsed to integers. Years are kept
    as the four-character strings of the listing. */
module Staleness {
  import opened Common
  import opened Inventory

  /** One row of a NOAA directory page: an entry name and its timestamp. */
  datatype Entry = Entry(name: string, modified: int)

  /** One row of the year listing, or of the annual update log. */
  datatype YearStamp = YearStamp(year: string, modified: int)

  // ---------------------------------------------------------------------
  // The year listing

  /** `x[:len(x)-1]`: the entry name without its trailing '/'. */
  function Trimmed(x: string): string {
    PySlice(x, 0, |x| - 1)
  }

  /** `get_yrs_data_available`: every name is trimmed of its last
      character, and only the four-character results are years. */
  function YearListing(entries: seq<Entry>): (r: seq<YearStamp>)
    ensures |r| <= |entries|
  {
    if |entries| == 0 then []
    else
      var e := entries[0];
      var rest := YearListing(entries[1..]);
      if |Trimmed(e.name)| == 4 then [YearStamp(Trimmed(e.name), e.modified)] + rest else rest
  }

  /** A year of the listing is the first four characters of a five-character
      entry name, with that entry's timestamp; no other entry gives one. */
  lemma {:induction false} YearListingSpec(entries: seq<Entry>, y: YearStamp)
    ensures y in YearListing(entries) <==>
      exists e :: e in entries && |e.name| == 5 && y == YearStamp(e.name[..4], e.modified)
  {
    if |entries| > 0 {
      YearListingSpec(entries[1..], y);
      var e := entries[0];
      TrimmedLength(e.name);
      assert forall x :: x in entries <==> x == e || x in entries[1..];
    }
  }

  lemma TrimmedLength(x: string)
    ensures |Trimmed(x)| == 4 <==> |x| == 5
    ensures |x| == 5 ==> Trimmed(x) == x[..4]
  {
  }

  /** Trimming and filtering keep the listing's order: the years of the
      listing are the five-character names, in page order. */
  lemma {:induction false} YearListingOrder(entries: seq<Entry>)
    requires forall i :: 0 <= i < |entries| ==> |entries[i].name| == 5
    ensures |YearListing(entries)| == |entries|
    ensures forall i :: 0 <= i < |entries| ==>
      YearListing(entries)[i] == YearStamp(entries[i].name[..4], entries[i].modified)
  {
    if |entries| > 0 {
      TrimmedLength(entries[0].name);
      YearListingOrder(entries[1..]);
    }
  }

  /** Example: the parent-directory link, the readme and the `2002/` entry. */
  lemma YearListingExample()
    ensures YearListing([Entry("2002/", 7), Entry("readme.txt", 5), Entry("/", 1)]) == [YearStamp("2002", 7)]
  {
    var es := [Entry("2002/", 7), Entry("readme.txt", 5), Entry("/", 1)];
    TrimmedLength("2002/");
    TrimmedLength("readme.txt");
    TrimmedLength("/");
    assert "2002/"[..4] == "2002";
    assert es[1..][1..][1..] == [];
    assert YearListing(es[1..][1..]) == [];
    assert YearListing(es[1..]) == [];
  }

  // ---------------------------------------------------------------------
  // The annual update log and the years to check

  function Years(log: seq<YearStamp>): (ys: seq<string>)
    ensures |ys| == |log| && forall i :: 0 <= i < |log| ==> ys[i] == log[i].year
  {
    seq(|log|, i requires 0 <= i < |log| => log[i].year)
  }

  /** The log created when none is stored: the listing with every
      timestamp set to the epoch. */
  function SeedLog(listing: seq<YearStamp>): (log: seq<YearStamp>)
    ensures Years(log) == Years(listing)
    ensures forall i :: 0 <= i < |log| ==> log[i].modified == Epoch
  {
    seq(|listing|, i requires 0 <= i < |listing| => YearStamp(listing[i].year, Epoch))
  }

  /** `current_yrs_data[current_yrs_data['Modified'] > annual_logs['Modified']]`:
      comparing the two series raises unless they carry identical labels
      in identical order; otherwise the rows whose upstream timestamp is
      strictly later than the logged one. */
  function StaleYears(listing: seq<YearStamp>, log: seq<YearStamp>): (r: Result<seq<YearStamp>>)
    ensures r.Ok? <==> Years(listing) == Years(log)
  {
    if Years(listing) != Years(log) then Err(Unaligned)
    else Ok(Newer(listing, log))
  }

  function Newer(listing: seq<YearStamp>, log: seq<YearStamp>): seq<YearStamp>
    requires |listing| == |log|
  {
    if |listing| == 0 then []
    else (if listing[0].modified > log[0].modified then [listing[0]] else []) + Newer(listing[1..], log[1..])
  }

  /** A listed year is chosen exactly when NOAA's timestamp is strictly
      later than the logged one: an unchanged year (equal timestamps) is not
      fetched again. */
  lemma {:induction false} NewerSpec(listing: seq<YearStamp>, log: seq<YearStamp>, y: YearStamp)
    requires |listing| == |log|
    ensures y in Newer(listing, log) <==>
      exists i :: 0 <= i < |listing| && y == listing[i] && listing[i].modified > log[i].modified
  {
    if |listing| > 0 {
      NewerSpec(listing[1..], log[1..], y);
      if y in Newer(listing[1..], log[1..]) {
        var i :| 0 <= i < |listing[1..]| && y == listing[1..][i] && listing[1..][i].modified > log[1..][i].modified;
        assert y == listing[i + 1] && listing[i + 1].modified > log[i + 1].modified;
      }
      forall i | 1 <= i < |listing| && y == listing[i] && listing[i].modified > log[i].modified
        ensures y in Newer(listing[1..], log[1..])
      {
        assert listing[1..][i - 1] == listing[i] && log[1..][i - 1] == log[i];
      }
    }
  }

  /** The selection of `get_years_to_check` in update_GSOD.py: a year with an unchanged timestamp is
      never returned, and each returned row is a listing row newer than its
      log entry. */
  lemma StaleYearsSpec(listing: seq<YearStamp>, log: seq<YearStamp>, y: YearStamp)
    requires StaleYears(listing, log).Ok?
    ensures y in StaleYears(listing, log).value <==>
      exists i :: 0 <= i < |listing| && y == listing[i] && listing[i].modified > log[i].modified
  {
    NewerSpec(listing, log, y);
  }

  /** `get_years_to_check`: the stored log, or the seeded one when there is
      none; the years whose timestamp moved on; and the log used. */
  function YearsToCheck(listing: seq<YearStamp>, stored: Option<seq<YearStamp>>): (r: Result<(seq<string>, seq<YearStamp>)>)
    ensures stored.None? ==> r.Ok? && r.value.1 == SeedLog(listing)
    ensures stored.Some? && r.Ok? ==> r.value.1 == stored.value
    ensures stored.Some? ==> (r.Ok? <==> Years(stored.value) == Years(listing))
    ensures r.Ok? ==> Years(r.value.1) == Years(listing)
  {
    var log := if stored.Some? then stored.value else SeedLog(listing);
    match StaleYears(listing, log)
    case Err(e) => Err(e)
    case Ok(rows) => Ok((Years(rows), log))
  }

  /** The first run, with no log, fetches every year NOAA has touched since
      the epoch; on a log whose labels match, a year is returned iff its
      timestamp moved strictly forward. */
  lemma YearsToCheckSpec(listing: seq<YearStamp>, stored: Option<seq<YearStamp>>, y: string)
    requires YearsToCheck(listing, stored).Ok?
    ensures var (ys, log) := YearsToCheck(listing, stored).value;
      y in ys <==> exists i :: 0 <= i < |listing| && listing[i].year == y && listing[i].modified > log[i].modified
    ensures stored.None? ==> (y in YearsToCheck(listing, stored).value.0 <==>
      exists i :: 0 <= i < |listing| && listing[i].year == y && listing[i].modified > Epoch)
  {
    var log := YearsToCheck(listing, stored).value.1;
    var rows := Newer(listing, log);
    if y in Years(rows) {
      var k :| 0 <= k < |rows| && Years(rows)[k] == y;
      NewerSpec(listing, log, rows[k]);
    }
    if exists i :: 0 <= i < |listing| && listing[i].year == y && listing[i].modified > log[i].modified {
      var i :| 0 <= i < |listing| && listing[i].year == y && listing[i].modified > log[i].modified;
      NewerSpec(listing, log, listing[i]);
      var k :| 0 <= k < |rows| && rows[k] == listing[i];
      assert Years(rows)[k] == y;
    }
  }

  /** `annual_logs.Modified.loc[year] = t`: every entry labelled `year`
      takes timestamp `t`; a label not yet present is appended. */
  function SetLog(log: seq<YearStamp>, year: string, t: int): (r: seq<YearStamp>)
    ensures year in Years(log) ==> Years(r) == Years(log)
    ensures year !in Years(log) ==> r == log + [YearStamp(year, t)]
    ensures year in Years(log) ==> forall i :: 0 <= i < |log| ==>
      r[i] == if log[i].year == year then YearStamp(year, t) else log[i]
  {
    if year in Years(log) then
      seq(|log|, i requires 0 <= i < |log| => if log[i].year == year then YearStamp(year, t) else log[i])
    else log + [YearStamp(year, t)]
  }

  /** The log after update_GSOD's loop: the `i`-th year of the run is
      stamped with the clock's `i`-th reading, one year after the other. */
  function AdvancedLog(log: seq<YearStamp>, years: seq<string>, clock: nat -> int): seq<YearStamp> {
    if |years| == 0 then log
    else SetLog(AdvancedLog(log, years[..|years| - 1], clock), years[|years| - 1], clock(|years| - 1))
  }

  /** One more year stamped on top of a prefix of the run. */
  lemma AdvancedLogStep(log: seq<YearStamp>, years: seq<string>, i: nat, clock: nat -> int)
    requires i < |years|
    ensures AdvancedLog(log, years[..i + 1], clock) == SetLog(AdvancedLog(log, years[..i], clock), years[i], clock(i))
  {
    assert years[..i + 1][..i] == years[..i];
  }

  /** When every year of the run is logged, the run keeps the log's labels;
      an entry of a year outside the run is untouched, and the entry of a
      year of the run holds a clock reading taken for that year, not NOAA's
      timestamp. */
  lemma {:induction false} AdvancedLogSpec(log: seq<YearStamp>, years: seq<string>, clock: nat -> int)
    requires forall j :: 0 <= j < |years| ==> years[j] in Years(log)
    ensures Years(AdvancedLog(log, years, clock)) == Years(log)
    ensures forall i :: 0 <= i < |log| && log[i].year !in years ==> AdvancedLog(log, years, clock)[i] == log[i]
    ensures forall i :: 0 <= i < |log| && log[i].year in years ==>
      exists j :: 0 <= j < |years| && years[j] == log[i].year && AdvancedLog(log, years, clock)[i].modified == clock(j)
  {
    if |years| > 0 {
      var n := |years| - 1;
      var prev := AdvancedLog(log, years[..n], clock);
      AdvancedLogSpec(log, years[..n], clock);
      assert years[n] in Years(prev);
      var next := AdvancedLog(log, years, clock);
      assert next == SetLog(prev, years[n], clock(n));
      forall i | 0 <= i < |log| && log[i].year !in years
        ensures next[i] == log[i]
      {
        assert log[i].year !in years[..n] by {
          forall j | 0 <= j < n ensures years[..n][j] != log[i].year {
            assert years[j] in years;
          }
        }
        assert prev[i].year == Years(prev)[i] == log[i].year;
      }
      forall i | 0 <= i < |log| && log[i].year in years
        ensures exists j :: 0 <= j < |years| && years[j] == log[i].year && next[i].modified == clock(j)
      {
        assert prev[i].year == Years(prev)[i] == log[i].year;
        if log[i].year != years[n] {
          var j0 :| 0 <= j0 < |years| && years[j0] == log[i].year;
          assert log[i].year in years[..n] by {
            assert years[..n][j0] == years[j0];
          }
          var j :| 0 <= j < n && years[..n][j] == log[i].year && prev[i].modified == clock(j);
          assert years[j] == log[i].year;
        }
      }
    }
  }

  /** Because the log records the run's clock, a year the run updated is
      not selected again as long as NOAA's timestamp for it is no later than
      the clock readings of the run. */
  lemma RerunSkipsUpdated(listing: seq<YearStamp>, log: seq<YearStamp>, years: seq<string>, clock: nat -> int, k: nat)
    requires Years(log) == Years(listing)
    requires forall j :: 0 <= j < |years| ==> years[j] in Years(log)
    requires k < |listing| && listing[k].year in years
    requires forall j :: 0 <= j < |years| ==> clock(j) >= listing[k].modified
    ensures StaleYears(listing, AdvancedLog(log, years, clock)).Ok?
    ensures listing[k] !in StaleYears(listing, AdvancedLog(log, years, clock)).value
  {
    var adv := AdvancedLog(log, years, clock);
    AdvancedLogSpec(log, years, clock);
    NewerSpec(listing, adv, listing[k]);
    forall i | 0 <= i < |listing| && listing[k] == listing[i]
      ensures listing[i].modified <= adv[i].modified
    {
      assert log[i].year == Years(log)[i] == Years(listing)[i] == listing[i].year;
    }
  }

  // ---------------------------------------------------------------------
  // The files of a year

  /** `x[:x.rfind('-')]`: the station ID of a file name. With no '-' at all
      `rfind` gives -1 and the slice drops the last character. */
  function FileStationId(x: string): string {
    PySlice(x, 0, RFind(x, '-'))
  }

  /** A NOAA file name `<USAF>-<WBAN>-<year>.op.gz` gives back its station
      ID `<USAF>-<WBAN>`. */
  lemma FileStationIdRoundTrip(id: string, rest: string)
    requires '-' !in rest
    ensures FileStationId(id + "-" + rest) == id
  {
    var x := id + "-" + rest;
    var k := RFind(x, '-');
    assert x[|id|] == '-';
    assert x[..|id|] == id;
  }

  /** Without a '-' the name loses its last character. */
  lemma FileStationIdNoHyphen(x: string)
    requires '-' !in x && |x| > 0
    ensures FileStationId(x) == x[..|x| - 1]
  {
  }

  /** `identify_files_on_NOAA_server_for_year`: every entry of the year's
      page with its station ID, except the year's tar archive. */
  function NoaaFiles(year: string, entries: seq<Entry>): (r: seq<NoaaFile>)
    ensures forall f :: f in r <==>
      exists e :: e in entries && e.name != "gsod_" + year + ".tar" && f == NoaaFile(e.name, e.modified, FileStationId(e.name))
  {
    if |entries| == 0 then []
    else
      var e := entries[0];
      var rest := NoaaFiles(year, entries[1..]);
      assert forall x :: x in entries <==> x == e || x in entries[1..];
      if e.name != "gsod_" + year + ".tar" then [NoaaFile(e.name, e.modified, FileStationId(e.name))] + rest else rest
  }

  /** The station IDs of a listing (`NOAA_files.ID`). */
  function ListedIds(files: seq<NoaaFile>): set<string> {
    set f | f in files :: f.id
  }

  // ---------------------------------------------------------------------
  // The objects stored for a year

  /** `key[key.find('/')+1:key.rfind('.')]`: the station ID of a stored key. */
  function ObjectKeyId(key: string): string {
    PySlice(key, Find(key, '/') + 1, RFind(key, '.'))
  }

  /** The key update_year stores a station's file under,
      `<year>/<ID>.csv`, gives back the station's ID. */
  lemma ObjectKeyIdRoundTrip(year: string, id: string)
    requires '/' !in year
    ensures ObjectKeyId(year + "/" + id + ".csv") == id
  {
    var key := year + "/" + id + ".csv";
    var a, b := Find(key, '/'), RFind(key, '.');
    assert key[|year|] == '/';
    var dot := |year| + 1 + |id|;
    assert key[dot] == '.';
    assert key[|year| + 1..dot] == id;
  }

  /** `bucket.objects.filter(Prefix=str(year)+'/')`. */
  predicate InYear(key: string, year: string) {
    |year| + 1 <= |key| && key[..|year| + 1] == year + "/"
  }

  /** A stored key is obsolete when it is of the year and its station is
      not in the year's listing. */
  predicate Obsolete(key: string, year: string, ids: set<string>) {
    InYear(key, year) && ObjectKeyId(key) !in ids
  }

  /** The file of a listed station is never deleted; that of an unlisted one
      always is. */
  lemma ObsoleteStationKey(year: string, id: string, ids: set<string>)
    requires '/' !in year
    ensures Obsolete(year + "/" + id + ".csv", year, ids) <==> id !in ids
  {
    ObjectKeyIdRoundTrip(year, id);
    var key := year + "/" + id + ".csv";
    assert key[..|year| + 1] == year + "/";
  }
}
