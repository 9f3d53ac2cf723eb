/** The incremental sync of update_GSOD.py: the object store (S3) the run
    reads and writes, the deletion of a year's obsolete objects, the
    per-file loop of `update_year`, and the orchestrator `update_GSOD`,
    which writes a year's inventory before it advances and writes that
    year's entry of the update log, and writes the reconciled station
    registry last.

    NOAA's web server is given as two functions from a URL: the parsed rows
    of a directory page, and the whitespace-split lines of a `.op` file.
    The clock is a function from the position of a year in the run to the
    time `pd.datetime.today()` reads there. */
module Sync {
  import opened Common
  import opened Stations
  import opened Frames
  import opened Inventory
  import opened Staleness
  import opened Metadata

  /** What an object of the store holds, as read back. */
  datatype Blob =
    | Dataset(rows: seq<Row>)          // a cleaned station-year, `<year>/<ID>.csv`
    | InventoryCsv(table: Table)
    | LogCsv(log: seq<YearStamp>)
    | HistoryCsv(stations: seq<Station>)

  /** One write to the store. */
  datatype Event = Wrote(key: string, blob: Blob) | Removed(key: string)

  const InventoryKey: string := "isd-inventory.csv"
  const LogKey: string := "annual_update_log.csv"
  const HistoryKey: string := "isd-history.csv"
  const RootUrl: string := "http://www1.ncdc.noaa.gov/pub/data/gsod/"

  /** The bucket: its objects by key, and the writes made to it so far. */
  class ObjectStore {
    var objects: map<string, Blob>
    ghost var journal: seq<Event>

    constructor (objects: map<string, Blob>)
      ensures this.objects == objects && journal == []
    {
      this.objects := objects;
      journal := [];
    }

    /** `df_to_csv_on_s3`: the object at `key` is replaced. */
    method Put(key: string, blob: Blob)
      modifies this
      ensures objects == old(objects)[key := blob]
      ensures journal == old(journal) + [Wrote(key, blob)]
    {
      objects := objects[key := blob];
      journal := journal + [Wrote(key, blob)];
    }

    /** `s3.Object(bucket, key).delete()`. */
    method Delete(key: string)
      modifies this
      ensures objects == old(objects) - {key}
      ensures journal == old(journal) + [Removed(key)]
    {
      objects := objects - {key};
      journal := journal + [Removed(key)];
    }
  }

  /** The stored update log, if there is one. */
  function StoredLog(o: map<string, Blob>): Option<seq<YearStamp>> {
    if LogKey in o && o[LogKey].LogCsv? then Some(o[LogKey].log) else None
  }

  /** The stored inventory, if there is one. */
  function StoredInventory(o: map<string, Blob>): Option<Table> {
    if InventoryKey in o && o[InventoryKey].InventoryCsv? then Some(o[InventoryKey].table) else None
  }

  /** The three well-known keys lie outside every year's folder. */
  lemma WellKnownKeys()
    ensures '/' !in LogKey && '/' !in InventoryKey && '/' !in HistoryKey
    ensures LogKey != InventoryKey && LogKey != HistoryKey && InventoryKey != HistoryKey
  {
  }

  /** A key with no '/' belongs to no year. */
  lemma NoSlashNotInYear(key: string, year: string)
    requires '/' !in key
    ensures !InYear(key, year)
  {
    if |year| + 1 <= |key| {
      assert key[|year|] in key;
      assert key[..|year| + 1][|year|] == key[|year|];
      assert (year + "/")[|year|] == '/';
    }
  }

  /** `get_years_to_check`: a missing log is seeded from the listing and
      written; the years to check are those of `YearsToCheck`. */
  method GetYearsToCheck(store: ObjectStore, pages: string -> seq<Entry>)
    returns (r: Result<(seq<string>, seq<YearStamp>)>)
    modifies store
    ensures r == YearsToCheck(YearListing(pages(RootUrl)), StoredLog(old(store.objects)))
    ensures StoredLog(old(store.objects)).Some? ==>
      store.objects == old(store.objects) && store.journal == old(store.journal)
    ensures StoredLog(old(store.objects)).None? ==>
      var seeded := LogCsv(SeedLog(YearListing(pages(RootUrl))));
      store.objects == old(store.objects)[LogKey := seeded] && store.journal == old(store.journal) + [Wrote(LogKey, seeded)]
  {
    var listing := YearListing(pages(RootUrl));
    var stored := StoredLog(store.objects);
    if stored.None? {
      store.Put(LogKey, LogCsv(SeedLog(listing)));
    }
    r := YearsToCheck(listing, stored);
  }

  // ---------------------------------------------------------------------
  // One year

  /** The store after the obsolete objects of `year` are deleted. */
  function WithoutObsolete(o: map<string, Blob>, year: string, ids: set<string>): map<string, Blob> {
    map k | k in o && !Obsolete(k, year, ids) :: o[k]
  }

  /** The journal only grew, and by no write of the update log. */
  predicate NoLogWrite(events: seq<Event>) {
    forall i :: 0 <= i < |events| ==> !(events[i].Wrote? && events[i].key == LogKey)
  }

  /** The loop of get_stations_to_update_for_year over the year's stored
      keys: each one whose station is not listed is deleted. */
  method DeleteObsolete(store: ObjectStore, year: string, ids: set<string>)
    modifies store
    ensures store.objects == WithoutObsolete(old(store.objects), year, ids)
    ensures old(store.journal) <= store.journal && NoLogWrite(store.journal[|old(store.journal)|..])
  {
    ghost var o := store.objects;
    ghost var j0 := store.journal;
    var todo := set k | k in store.objects && InYear(k, year);
    while todo != {}
      invariant todo <= o.Keys
      invariant forall k :: k in todo ==> InYear(k, year)
      invariant store.objects == map k | k in o && !(Obsolete(k, year, ids) && k !in todo) :: o[k]
      invariant j0 <= store.journal && NoLogWrite(store.journal[|j0|..])
      decreases todo
    {
      var key :| key in todo;
      if ObjectKeyId(key) !in ids {
        ghost var tail := store.journal[|j0|..];
        store.Delete(key);
        assert store.journal[|j0|..] == tail + [Removed(key)];
      }
      todo := todo - {key};
    }
  }

  /** The URL of a year's directory page. */
  function YearUrl(year: string): string {
    RootUrl + year + "/"
  }

  /** `get_stations_to_update_for_year`: the year's obsolete objects are
      deleted, the inventory is pruned of the year's unlisted stations, and
      the stale files are chosen against the pruned inventory. */
  method GetStationsToUpdate(year: string, inv: Table, store: ObjectStore, pages: string -> seq<Entry>)
    returns (pruned: Table, stale: seq<Merged>)
    modifies store
    ensures var files := NoaaFiles(year, pages(YearUrl(year)));
      && store.objects == WithoutObsolete(old(store.objects), year, ListedIds(files))
      && pruned == PruneYear(inv, year, ListedIds(files))
      && stale == StaleFiles(files, pruned, year)
    ensures old(store.journal) <= store.journal && NoLogWrite(store.journal[|old(store.journal)|..])
  {
    var files := NoaaFiles(year, pages(YearUrl(year)));
    DeleteObsolete(store, year, ListedIds(files));
    pruned := PruneYear(inv, year, ListedIds(files));
    stale := StaleFiles(files, pruned, year);
  }

  /** What one file of `update_year` produces: the key its clean frame is
      stored under, the frame, and its inventory summary. */
  datatype Output = Output(key: string, rows: seq<Row>, summary: Keyed)

  /** `raw_op_to_clean_dataframe` and `get_station_year_inventory` on one
      file, and the key `<year>/<ID>.csv` of its first row's ID. */
  function ProcessFile(year: string, file: string, fetch: string -> seq<seq<string>>, reg: seq<Station>): (r: Result<Output>)
    ensures r.Ok? ==> InventoryStationsYear(r.value.rows) == Ok(r.value.summary)
    ensures r.Ok? ==> InYear(r.value.key, year)
  {
    var lines := fetch(YearUrl(year) + file);
    if !Cleanable(lines) then Err(BadCell("raw_op_to_clean_dataframe"))
    else
      var rows := CleanRows(lines, reg);
      match InventoryStationsYear(rows)
      case Err(e) => Err(e)
      case Ok(s) =>
        DatasetKeyInYear(year, Get(rows[0], IdCode).s);
        Ok(Output(year + "/" + Get(rows[0], IdCode).s + ".csv", rows, s))
  }

  /** A dataset key `<year>/<ID>.csv` lies in its year's folder. */
  lemma DatasetKeyInYear(year: string, id: string)
    ensures InYear(year + "/" + id + ".csv", year)
  {
    assert (year + "/" + id + ".csv")[..|year| + 1] == year + "/";
  }

  /** The files processed in order; the first failure ends the year. */
  function ProcessAll(year: string, files: seq<string>, fetch: string -> seq<seq<string>>, reg: seq<Station>): (r: Result<seq<Output>>)
    ensures r.Ok? ==> |r.value| == |files|
    ensures r.Ok? ==> forall out :: out in r.value ==> InventoryStationsYear(out.rows) == Ok(out.summary)
  {
    if |files| == 0 then Ok([])
    else
      match ProcessAll(year, files[..|files| - 1], fetch, reg)
      case Err(e) => Err(e)
      case Ok(outs) =>
        match ProcessFile(year, files[|files| - 1], fetch, reg)
        case Err(e) => Err(e)
        case Ok(o) => Ok(outs + [o])
  }

  /** Every output of a year is stored in that year's folder. */
  lemma {:induction false} ProcessAllInYear(year: string, files: seq<string>, fetch: string -> seq<seq<string>>, reg: seq<Station>)
    requires ProcessAll(year, files, fetch, reg).Ok?
    ensures forall out :: out in ProcessAll(year, files, fetch, reg).value ==> InYear(out.key, year)
  {
    if |files| > 0 {
      ProcessAllInYear(year, files[..|files| - 1], fetch, reg);
    }
  }

  /** A failure on a prefix of the files is a failure of the year. */
  lemma {:induction false} ProcessAllFails(year: string, files: seq<string>, k: nat, fetch: string -> seq<seq<string>>, reg: seq<Station>)
    requires k <= |files| && ProcessAll(year, files[..k], fetch, reg).Err?
    ensures ProcessAll(year, files, fetch, reg).Err?
  {
    if k < |files| {
      assert files[..|files| - 1][..k] == files[..k];
      ProcessAllFails(year, files[..|files| - 1], k, fetch, reg);
    } else {
      assert files[..k] == files;
    }
  }

  /** The inventory after the upsert of each output's summary, in order. */
  function UpsertAll(t: Table, outs: seq<Output>): Table {
    if |outs| == 0 then t else Upsert(UpsertAll(t, outs[..|outs| - 1]), outs[|outs| - 1].summary)
  }

  /** The store after each output is written under its key, in order. */
  function PutAll(o: map<string, Blob>, outs: seq<Output>): map<string, Blob> {
    if |outs| == 0 then o else PutAll(o, outs[..|outs| - 1])[outs[|outs| - 1].key := Dataset(outs[|outs| - 1].rows)]
  }

  /** One more output on top of the upserts of its predecessors. */
  lemma UpsertAllStep(t: Table, outs: seq<Output>, o: Output)
    ensures UpsertAll(t, outs + [o]) == Upsert(UpsertAll(t, outs), o.summary)
  {
    assert (outs + [o])[..|outs|] == outs;
  }

  /** One more output written on top of the writes of its predecessors. */
  lemma PutAllStep(m: map<string, Blob>, outs: seq<Output>, o: Output)
    ensures PutAll(m, outs + [o]) == PutAll(m, outs)[o.key := Dataset(o.rows)]
  {
    assert (outs + [o])[..|outs|] == outs;
  }

  /** The station-year keys of the outputs' summaries. */
  function SummaryKeys(outs: seq<Output>): set<Cell> {
    set out | out in outs :: out.summary.key
  }

  /** After the year's upserts, the key of each summary is held by exactly
      one row, and any other key by as many rows as before. */
  lemma {:induction false} UpsertAllCounts(t: Table, outs: seq<Output>, k: Cell)
    ensures KeyCount(UpsertAll(t, outs), k) == if k in SummaryKeys(outs) then 1 else KeyCount(t, k)
  {
    if |outs| > 0 {
      var n := |outs| - 1;
      UpsertAllCounts(t, outs[..n], k);
      UpsertCounts(UpsertAll(t, outs[..n]), outs[n].summary, k);
      assert outs == outs[..n] + [outs[n]];
      assert SummaryKeys(outs) == SummaryKeys(outs[..n]) + {outs[n].summary.key} by {
        forall out | out in outs ensures out in outs[..n] || out == outs[n] { }
      }
    }
  }

  /** The year's upserts keep at most one row per key. */
  lemma {:induction false} UpsertAllUnique(t: Table, outs: seq<Output>)
    requires UniqueKeys(t)
    ensures UniqueKeys(UpsertAll(t, outs))
  {
    if |outs| > 0 {
      UpsertAllUnique(t, outs[..|outs| - 1]);
      UpsertKeepsUnique(UpsertAll(t, outs[..|outs| - 1]), outs[|outs| - 1].summary);
    }
  }

  /** The year's writes leave every key that no output is written under as
      it was. */
  lemma {:induction false} PutAllElsewhere(o: map<string, Blob>, outs: seq<Output>, key: string)
    requires forall out :: out in outs ==> out.key != key
    ensures key in PutAll(o, outs) <==> key in o
    ensures key in o ==> PutAll(o, outs)[key] == o[key]
  {
    if |outs| > 0 {
      var n := |outs| - 1;
      assert outs[n] in outs;
      forall out | out in outs[..n] ensures out.key != key {
        assert out in outs;
      }
      PutAllElsewhere(o, outs[..n], key);
    }
  }

  /** The file names of the stale rows (`files_to_update['File'].values`). */
  function FileNames(m: seq<Merged>): (r: seq<string>)
    ensures |r| == |m| && forall i :: 0 <= i < |m| ==> r[i] == m[i].f.file
  {
    seq(|m|, i requires 0 <= i < |m| => m[i].f.file)
  }

  /** The files of `year` that `update_year` fetches, given the inventory. */
  function YearFiles(year: string, inv: Table, pages: string -> seq<Entry>): seq<string> {
    var files := NoaaFiles(year, pages(YearUrl(year)));
    FileNames(StaleFiles(files, PruneYear(inv, year, ListedIds(files)), year))
  }

  /** The inventory `update_year` returns. */
  function YearStep(year: string, inv: Table, pages: string -> seq<Entry>, fetch: string -> seq<seq<string>>, reg: seq<Station>): Result<Table> {
    var files := NoaaFiles(year, pages(YearUrl(year)));
    match ProcessAll(year, YearFiles(year, inv, pages), fetch, reg)
    case Err(e) => Err(e)
    case Ok(outs) => Ok(UpsertAll(PruneYear(inv, year, ListedIds(files)), outs))
  }

  /** The store `update_year` leaves behind: the year's obsolete objects
      deleted, then each output written under its key. */
  function YearObjects(o: map<string, Blob>, year: string, inv: Table, pages: string -> seq<Entry>,
                       fetch: string -> seq<seq<string>>, reg: seq<Station>): Result<map<string, Blob>> {
    match ProcessAll(year, YearFiles(year, inv, pages), fetch, reg)
    case Err(e) => Err(e)
    case Ok(outs) => Ok(PutAll(WithoutObsolete(o, year, ListedIds(NoaaFiles(year, pages(YearUrl(year))))), outs))
  }

  /** `update_year` touches no key outside its year's folder. */
  lemma YearObjectsElsewhere(o: map<string, Blob>, year: string, inv: Table, pages: string -> seq<Entry>,
                             fetch: string -> seq<seq<string>>, reg: seq<Station>, key: string)
    requires YearObjects(o, year, inv, pages, fetch, reg).Ok? && !InYear(key, year)
    ensures key in YearObjects(o, year, inv, pages, fetch, reg).value <==> key in o
    ensures key in o ==> YearObjects(o, year, inv, pages, fetch, reg).value[key] == o[key]
  {
    var outs := ProcessAll(year, YearFiles(year, inv, pages), fetch, reg).value;
    var pruned := WithoutObsolete(o, year, ListedIds(NoaaFiles(year, pages(YearUrl(year)))));
    ProcessAllInYear(year, YearFiles(year, inv, pages), fetch, reg);
    PutAllElsewhere(pruned, outs, key);
  }

  /** A dataset key has a '/', so it is none of the well-known keys. */
  lemma DatasetKey(year: string, id: string)
    ensures var key := year + "/" + id + ".csv"; key != LogKey && key != InventoryKey && key != HistoryKey
  {
    var key := year + "/" + id + ".csv";
    assert key[|year|] == '/';
    WellKnownKeys();
  }

  /** One more file processed on top of a successful prefix. */
  lemma ProcessAllStep(year: string, files: seq<string>, k: nat, fetch: string -> seq<seq<string>>, reg: seq<Station>, outs: seq<Output>)
    requires k < |files| && ProcessAll(year, files[..k], fetch, reg) == Ok(outs)
    ensures ProcessFile(year, files[k], fetch, reg).Err? ==> ProcessAll(year, files[..k + 1], fetch, reg).Err?
    ensures ProcessFile(year, files[k], fetch, reg).Ok? ==>
      ProcessAll(year, files[..k + 1], fetch, reg) == Ok(outs + [ProcessFile(year, files[k], fetch, reg).value])
  {
    assert files[..k + 1][..k] == files[..k];
  }

  /** A journal that only grew by events other than log writes keeps doing
      so when one more such event is appended. */
  lemma NoLogWriteAppend(j0: seq<Event>, j: seq<Event>, e: Event)
    requires j0 <= j && NoLogWrite(j[|j0|..])
    requires !(e.Wrote? && e.key == LogKey)
    ensures j0 <= j + [e] && NoLogWrite((j + [e])[|j0|..])
  {
    assert (j + [e])[|j0|..] == j[|j0|..] + [e];
  }

  /** The body of update_year's loop for one file: the file is cleaned and
      summarised, the summary upserted, and the clean frame stored; nothing
      is changed when cleaning or summarising fails. */
  method ProcessOne(year: string, file: string, inventory: Table, store: ObjectStore, reg: seq<Station>,
                    fetch: string -> seq<seq<string>>)
    returns (r: Result<(Table, Output)>)
    modifies store
    ensures r.Ok? <==> ProcessFile(year, file, fetch, reg).Ok?
    ensures r.Ok? ==> r.value.1 == ProcessFile(year, file, fetch, reg).value
    ensures r.Ok? ==> r.value.0 == Upsert(inventory, r.value.1.summary)
    ensures r.Ok? ==> store.objects == old(store.objects)[r.value.1.key := Dataset(r.value.1.rows)]
    ensures r.Ok? ==> store.journal == old(store.journal) + [Wrote(r.value.1.key, Dataset(r.value.1.rows))]
    ensures r.Ok? ==> r.value.1.key != LogKey
    ensures r.Err? ==> store.objects == old(store.objects) && store.journal == old(store.journal)
  {
    var lines := fetch(YearUrl(year) + file);
    var df := RawOpToCleanFrame(lines, reg);
    if df.Err? {
      return Err(BadCell("raw_op_to_clean_dataframe"));
    }
    var rows := df.value.rows;
    var summary := InventoryStationsYear(rows);
    if summary.Err? {
      return Err(summary.error);
    }
    var key := year + "/" + Get(rows[0], IdCode).s + ".csv";
    DatasetKey(year, Get(rows[0], IdCode).s);
    store.Put(key, Dataset(rows));
    return Ok((Upsert(inventory, summary.value), Output(key, rows, summary.value)));
  }

  /** One turn of update_year's loop: the `k`-th file is processed on top
      of the outputs of the files before it. */
  method FileStep(year: string, files: seq<string>, k: nat, pruned: Table, inventory: Table,
                  ghost o: map<string, Blob>, ghost outs: seq<Output>, ghost j0: seq<Event>,
                  store: ObjectStore, reg: seq<Station>, fetch: string -> seq<seq<string>>)
    returns (r: Result<(Table, Output)>)
    requires k < |files| && ProcessAll(year, files[..k], fetch, reg) == Ok(outs)
    requires inventory == UpsertAll(pruned, outs) && store.objects == PutAll(o, outs)
    requires j0 <= store.journal && NoLogWrite(store.journal[|j0|..])
    modifies store
    ensures j0 <= store.journal && NoLogWrite(store.journal[|j0|..])
    ensures r.Err? ==> ProcessAll(year, files, fetch, reg).Err?
    ensures r.Ok? ==> ProcessAll(year, files[..k + 1], fetch, reg) == Ok(outs + [r.value.1])
    ensures r.Ok? ==> r.value.0 == UpsertAll(pruned, outs + [r.value.1])
    ensures r.Ok? ==> store.objects == PutAll(o, outs + [r.value.1])
  {
    ProcessAllStep(year, files, k, fetch, reg, outs);
    ghost var j := store.journal;
    r := ProcessOne(year, files[k], inventory, store, reg, fetch);
    if r.Err? {
      ProcessAllFails(year, files, k + 1, fetch, reg);
    } else {
      NoLogWriteAppend(j0, j, Wrote(r.value.1.key, Dataset(r.value.1.rows)));
      UpsertAllStep(pruned, outs, r.value.1);
      PutAllStep(o, outs, r.value.1);
    }
  }

  /** update_year's loop over the stale files: each file in turn is
      processed, its summary upserted and its frame stored; the counter
      counts the files. */
  method UpsertFiles(year: string, files: seq<string>, pruned: Table, store: ObjectStore, reg: seq<Station>,
                     fetch: string -> seq<seq<string>>)
    returns (r: Result<Table>, downloads: nat, ghost outs: seq<Output>)
    modifies store
    ensures r.Ok? <==> ProcessAll(year, files, fetch, reg).Ok?
    ensures r.Ok? ==> ProcessAll(year, files, fetch, reg) == Ok(outs) && downloads == |files|
    ensures r.Ok? ==> r.value == UpsertAll(pruned, outs)
    ensures r.Ok? ==> store.objects == PutAll(old(store.objects), outs)
    ensures old(store.journal) <= store.journal && NoLogWrite(store.journal[|old(store.journal)|..])
  {
    ghost var j0 := store.journal;
    ghost var o := store.objects;
    var inventory := pruned;
    downloads := 0;
    outs := [];
    var k := 0;
    while k < |files|
      invariant 0 <= k <= |files| && downloads == k
      invariant ProcessAll(year, files[..k], fetch, reg) == Ok(outs)
      invariant inventory == UpsertAll(pruned, outs)
      invariant store.objects == PutAll(o, outs)
      invariant j0 <= store.journal && NoLogWrite(store.journal[|j0|..])
    {
      var step := FileStep(year, files, k, pruned, inventory, o, outs, j0, store, reg, fetch);
      if step.Err? {
        return Err(BadCell("update_year")), downloads, outs;
      }
      inventory := step.value.0;
      outs := outs + [step.value.1];
      downloads := downloads + 1;
      k := k + 1;
    }
    assert files[..k] == files;
    return Ok(inventory), downloads, outs;
  }

  /** `update_year`: the year's obsolete objects are deleted and its
      inventory pruned, then every stale file is fetched, cleaned,
      summarised, upserted and stored, one after the other. */
  method UpdateYear(year: string, inv: Table, store: ObjectStore, reg: seq<Station>,
                    pages: string -> seq<Entry>, fetch: string -> seq<seq<string>>)
    returns (r: Result<Table>, downloads: nat)
    modifies store
    ensures r.Ok? <==> YearStep(year, inv, pages, fetch, reg).Ok?
    ensures r.Ok? ==> r == YearStep(year, inv, pages, fetch, reg) && downloads == |YearFiles(year, inv, pages)|
    ensures r.Ok? ==>
      var ids := ListedIds(NoaaFiles(year, pages(YearUrl(year))));
      store.objects == PutAll(WithoutObsolete(old(store.objects), year, ids),
                              ProcessAll(year, YearFiles(year, inv, pages), fetch, reg).value)
    ensures old(store.journal) <= store.journal && NoLogWrite(store.journal[|old(store.journal)|..])
  {
    ghost var j0 := store.journal;
    var pruned, stale := GetStationsToUpdate(year, inv, store, pages);
    ghost var j1 := store.journal;
    var files := FileNames(stale);
    ghost var outs;
    r, downloads, outs := UpsertFiles(year, files, pruned, store, reg, fetch);
    assert store.journal[|j0|..] == j1[|j0|..] + store.journal[|j1|..];
  }

  // ---------------------------------------------------------------------
  // The whole run

  /** The inventory after the years of the run, one after the other; the
      first failing year ends the run. */
  function RunYears(years: seq<string>, inv: Table, pages: string -> seq<Entry>,
                    fetch: string -> seq<seq<string>>, reg: seq<Station>): Result<Table> {
    if |years| == 0 then Ok(inv)
    else
      match RunYears(years[..|years| - 1], inv, pages, fetch, reg)
      case Err(e) => Err(e)
      case Ok(t) => YearStep(years[|years| - 1], t, pages, fetch, reg)
  }

  /** One more year run on top of a successful prefix of the years. */
  lemma RunYearsStep(years: seq<string>, i: nat, inv: Table, pages: string -> seq<Entry>,
                     fetch: string -> seq<seq<string>>, reg: seq<Station>, t: Table)
    requires i < |years| && RunYears(years[..i], inv, pages, fetch, reg) == Ok(t)
    ensures RunYears(years[..i + 1], inv, pages, fetch, reg) == YearStep(years[i], t, pages, fetch, reg)
  {
    assert years[..i + 1][..i] == years[..i];
  }

  /** A failure on a prefix of the years is a failure of the run. */
  lemma {:induction false} RunYearsFails(years: seq<string>, i: nat, inv: Table, pages: string -> seq<Entry>,
                                         fetch: string -> seq<seq<string>>, reg: seq<Station>)
    requires i <= |years| && RunYears(years[..i], inv, pages, fetch, reg).Err?
    ensures RunYears(years, inv, pages, fetch, reg).Err?
  {
    if i < |years| {
      assert years[..|years| - 1][..i] == years[..i];
      RunYearsFails(years[..|years| - 1], i, inv, pages, fetch, reg);
    } else {
      assert years[..i] == years;
    }
  }

  /** The store after the years of the run, one after the other: each year
      deletes and writes its own objects, then writes the inventory and the
      log with that year stamped; the first failing year ends the run. */
  function RunObjects(years: seq<string>, inv: Table, log: seq<YearStamp>, o: map<string, Blob>,
                      pages: string -> seq<Entry>, fetch: string -> seq<seq<string>>, reg: seq<Station>,
                      clock: nat -> int): Result<map<string, Blob>> {
    if |years| == 0 then Ok(o)
    else
      var n := |years| - 1;
      match RunObjects(years[..n], inv, log, o, pages, fetch, reg, clock)
      case Err(e) => Err(e)
      case Ok(before) =>
        match RunYears(years[..n], inv, pages, fetch, reg)
        case Err(e) => Err(e)
        case Ok(t) =>
          match YearStep(years[n], t, pages, fetch, reg)
          case Err(e) => Err(e)
          case Ok(next) =>
            match YearObjects(before, years[n], t, pages, fetch, reg)
            case Err(e) => Err(e)
            case Ok(after) => Ok(after[InventoryKey := InventoryCsv(next)][LogKey := LogCsv(AdvancedLog(log, years, clock))])
  }

  /** One more year of stores on top of a successful prefix of the run. */
  lemma RunObjectsStep(years: seq<string>, i: nat, inv: Table, log: seq<YearStamp>, o: map<string, Blob>,
                       pages: string -> seq<Entry>, fetch: string -> seq<seq<string>>, reg: seq<Station>,
                       clock: nat -> int, before: map<string, Blob>, t: Table)
    requires i < |years| && RunObjects(years[..i], inv, log, o, pages, fetch, reg, clock) == Ok(before)
    requires RunYears(years[..i], inv, pages, fetch, reg) == Ok(t)
    requires YearObjects(before, years[i], t, pages, fetch, reg).Ok?
    ensures YearStep(years[i], t, pages, fetch, reg).Ok?
    ensures RunObjects(years[..i + 1], inv, log, o, pages, fetch, reg, clock) ==
      Ok(YearObjects(before, years[i], t, pages, fetch, reg).value
           [InventoryKey := InventoryCsv(YearStep(years[i], t, pages, fetch, reg).value)]
           [LogKey := LogCsv(AdvancedLog(log, years[..i + 1], clock))])
  {
    assert years[..i + 1][..i] == years[..i];
  }

  /** The run succeeds on the store exactly when it does on the inventory. */
  lemma {:induction false} RunObjectsOk(years: seq<string>, inv: Table, log: seq<YearStamp>, o: map<string, Blob>,
                                        pages: string -> seq<Entry>, fetch: string -> seq<seq<string>>, reg: seq<Station>,
                                        clock: nat -> int)
    ensures RunObjects(years, inv, log, o, pages, fetch, reg, clock).Ok? <==> RunYears(years, inv, pages, fetch, reg).Ok?
  {
    if |years| > 0 {
      RunObjectsOk(years[..|years| - 1], inv, log, o, pages, fetch, reg, clock);
    }
  }

  /** A run leaves every object outside its years' folders as it was,
      except the inventory and the log. */
  lemma {:induction false} RunObjectsElsewhere(years: seq<string>, inv: Table, log: seq<YearStamp>, o: map<string, Blob>,
                                               pages: string -> seq<Entry>, fetch: string -> seq<seq<string>>,
                                               reg: seq<Station>, clock: nat -> int, key: string)
    requires RunObjects(years, inv, log, o, pages, fetch, reg, clock).Ok?
    requires key != InventoryKey && key != LogKey && forall y :: y in years ==> !InYear(key, y)
    ensures key in RunObjects(years, inv, log, o, pages, fetch, reg, clock).value <==> key in o
    ensures key in o ==> RunObjects(years, inv, log, o, pages, fetch, reg, clock).value[key] == o[key]
  {
    if |years| > 0 {
      var n := |years| - 1;
      forall y | y in years[..n] ensures !InYear(key, y) {
        assert y in years;
      }
      RunObjectsElsewhere(years[..n], inv, log, o, pages, fetch, reg, clock, key);
      var before := RunObjects(years[..n], inv, log, o, pages, fetch, reg, clock).value;
      var t := RunYears(years[..n], inv, pages, fetch, reg).value;
      assert years[n] in years;
      YearObjectsElsewhere(before, years[n], t, pages, fetch, reg, key);
    }
  }

  /** The years update_GSOD selects and the log it starts from. */
  function Plan(o: map<string, Blob>, pages: string -> seq<Entry>): Result<(seq<string>, seq<YearStamp>)> {
    YearsToCheck(YearListing(pages(RootUrl)), StoredLog(o))
  }

  /** The inventory a run starts from (`load_isd_inventory`). */
  function StartInventory(o: map<string, Blob>, noaa: seq<Row>): Table {
    LoadIsdInventory(StoredInventory(o), noaa)
  }

  /** The inventory a run ends with, if it gets through all its years. */
  function FinalInventory(o: map<string, Blob>, pages: string -> seq<Entry>, fetch: string -> seq<seq<string>>,
                          noaa: seq<Row>, history: seq<Station>): Result<Table> {
    match Plan(o, pages)
    case Err(e) => Err(e)
    case Ok(p) => RunYears(p.0, StartInventory(o, noaa), pages, fetch, CleanHistoryMetadata(history))
  }

  /** The store once the years are chosen: a missing log is seeded from
      the listing. */
  function PlannedObjects(o: map<string, Blob>, pages: string -> seq<Entry>): map<string, Blob> {
    if StoredLog(o).None? then o[LogKey := LogCsv(SeedLog(YearListing(pages(RootUrl))))] else o
  }

  /** The store a run ends with, if it gets through all its years: the
      planned store after the years of the run, and the registry reconciled
      with the final inventory. */
  function FinalObjects(o: map<string, Blob>, pages: string -> seq<Entry>, fetch: string -> seq<seq<string>>,
                        noaa: seq<Row>, history: seq<Station>, clock: nat -> int): Result<map<string, Blob>> {
    var reg := CleanHistoryMetadata(history);
    match Plan(o, pages)
    case Err(e) => Err(e)
    case Ok(p) =>
      match RunYears(p.0, StartInventory(o, noaa), pages, fetch, reg)
      case Err(e) => Err(e)
      case Ok(inv) =>
        match RunObjects(p.0, StartInventory(o, noaa), p.1, PlannedObjects(o, pages), pages, fetch, reg, clock)
        case Err(e) => Err(e)
        case Ok(m) => Ok(m[HistoryKey := HistoryCsv(UpdateMetadata(reg, inv))])
  }

  /** A write of the update log. */
  predicate LogWrite(e: Event) {
    e.Wrote? && e.key == LogKey
  }

  /** Every write of the update log, except one that opens `events` (the
      seeding of a missing log), directly follows a write of the inventory. */
  predicate LogAfterInventory(events: seq<Event>) {
    forall i :: 0 < i < |events| && LogWrite(events[i]) ==>
      events[i - 1].Wrote? && events[i - 1].key == InventoryKey
  }

  /** Appending events that do not open with a log write keeps the ordering
      (one that does must follow an inventory write). */
  lemma LogAfterInventoryAppend(a: seq<Event>, b: seq<Event>)
    requires LogAfterInventory(a) && LogAfterInventory(b)
    requires |b| > 0 && LogWrite(b[0]) ==> |a| > 0 && a[|a| - 1].Wrote? && a[|a| - 1].key == InventoryKey
    ensures LogAfterInventory(a + b)
  {
    forall i | 0 < i < |a + b| && LogWrite((a + b)[i])
      ensures (a + b)[i - 1].Wrote? && (a + b)[i - 1].key == InventoryKey
    {
      if i > |a| {
        assert b[i - |a|] == (a + b)[i];
        assert b[i - |a| - 1] == (a + b)[i - 1];
      } else if i == |a| {
        assert b[0] == (a + b)[i];
        assert a[|a| - 1] == (a + b)[i - 1];
      }
    }
  }

  /** A journal ordered since `j0` stays so when it grows by events with no
      log write. */
  lemma OrderedAfterSegment(j0: seq<Event>, j1: seq<Event>, j: seq<Event>)
    requires j0 <= j1 <= j && LogAfterInventory(j1[|j0|..]) && NoLogWrite(j[|j1|..])
    ensures j0 <= j && LogAfterInventory(j[|j0|..])
  {
    assert j[|j0|..] == j1[|j0|..] + j[|j1|..];
    LogAfterInventoryAppend(j1[|j0|..], j[|j1|..]);
  }

  /** A journal ordered since `j0` stays so when one more event is
      appended, provided a log write comes right after an inventory write. */
  lemma OrderedAppend(j0: seq<Event>, j: seq<Event>, e: Event)
    requires j0 <= j && LogAfterInventory(j[|j0|..])
    requires LogWrite(e) ==> |j| > |j0| && j[|j| - 1].Wrote? && j[|j| - 1].key == InventoryKey
    ensures j0 <= j + [e] && LogAfterInventory((j + [e])[|j0|..])
  {
    assert (j + [e])[|j0|..] == j[|j0|..] + [e];
  }

  /** One year of update_GSOD's loop: the year is updated, the inventory
      written, the year's log entry stamped with the clock reading and the
      log written. */
  method YearRound(year: string, now: int, inventory: Table, log: seq<YearStamp>, store: ObjectStore,
                   reg: seq<Station>, pages: string -> seq<Entry>, fetch: string -> seq<seq<string>>,
                   ghost j0: seq<Event>)
    returns (r: Result<(Table, seq<YearStamp>)>)
    requires j0 <= store.journal && LogAfterInventory(store.journal[|j0|..])
    modifies store
    ensures j0 <= store.journal && LogAfterInventory(store.journal[|j0|..])
    ensures r.Ok? <==> YearStep(year, inventory, pages, fetch, reg).Ok?
    ensures r.Ok? ==> r.value.0 == YearStep(year, inventory, pages, fetch, reg).value
    ensures r.Ok? ==> r.value.1 == SetLog(log, year, now)
    ensures r.Ok? ==> YearObjects(old(store.objects), year, inventory, pages, fetch, reg).Ok?
    ensures r.Ok? ==> store.objects == YearObjects(old(store.objects), year, inventory, pages, fetch, reg).value
                                         [InventoryKey := InventoryCsv(r.value.0)][LogKey := LogCsv(r.value.1)]
  {
    ghost var j1 := store.journal;
    var inv, downloads := UpdateYear(year, inventory, store, reg, pages, fetch);
    OrderedAfterSegment(j0, j1, store.journal);
    if inv.Err? {
      return Err(inv.error);
    }
    var next := SetLog(log, year, now);
    WellKnownKeys();
    ghost var j2 := store.journal;
    OrderedAppend(j0, j2, Wrote(InventoryKey, InventoryCsv(inv.value)));
    store.Put(InventoryKey, InventoryCsv(inv.value));
    ghost var j3 := store.journal;
    OrderedAppend(j0, j3, Wrote(LogKey, LogCsv(next)));
    store.Put(LogKey, LogCsv(next));
    return Ok((inv.value, next));
  }

  /** update_GSOD's loop over the years to check, from the loaded
      inventory and the log as read (or seeded). */
  method RunLoop(years: seq<string>, inv: Table, log: seq<YearStamp>, store: ObjectStore, reg: seq<Station>,
                 pages: string -> seq<Entry>, fetch: string -> seq<seq<string>>, clock: nat -> int,
                 ghost j1: seq<Event>)
    returns (r: Result<(Table, seq<YearStamp>)>)
    requires LogKey in store.objects && store.objects[LogKey] == LogCsv(log)
    requires j1 <= store.journal && LogAfterInventory(store.journal[|j1|..])
    modifies store
    ensures j1 <= store.journal && LogAfterInventory(store.journal[|j1|..])
    ensures r.Ok? <==> RunYears(years, inv, pages, fetch, reg).Ok?
    ensures r.Ok? ==> r.value.0 == RunYears(years, inv, pages, fetch, reg).value
    ensures r.Ok? ==> r.value.1 == AdvancedLog(log, years, clock)
    ensures r.Ok? ==> RunObjects(years, inv, log, old(store.objects), pages, fetch, reg, clock) == Ok(store.objects)
    ensures r.Ok? ==> LogKey in store.objects && store.objects[LogKey] == LogCsv(r.value.1)
    ensures r.Ok? && |years| > 0 ==> InventoryKey in store.objects && store.objects[InventoryKey] == InventoryCsv(r.value.0)
  {
    ghost var o := store.objects;
    var inventory := inv;
    var current := log;
    var i := 0;
    while i < |years|
      invariant 0 <= i <= |years|
      invariant RunYears(years[..i], inv, pages, fetch, reg) == Ok(inventory)
      invariant current == AdvancedLog(log, years[..i], clock)
      invariant RunObjects(years[..i], inv, log, o, pages, fetch, reg, clock) == Ok(store.objects)
      invariant LogKey in store.objects && store.objects[LogKey] == LogCsv(current)
      invariant i > 0 ==> InventoryKey in store.objects && store.objects[InventoryKey] == InventoryCsv(inventory)
      invariant j1 <= store.journal && LogAfterInventory(store.journal[|j1|..])
    {
      RunYearsStep(years, i, inv, pages, fetch, reg, inventory);
      AdvancedLogStep(log, years, i, clock);
      ghost var before := store.objects;
      var step := YearRound(years[i], clock(i), inventory, current, store, reg, pages, fetch, j1);
      if step.Err? {
        RunYearsFails(years, i + 1, inv, pages, fetch, reg);
        return Err(step.error);
      }
      RunObjectsStep(years, i, inv, log, o, pages, fetch, reg, clock, before, inventory);
      inventory := step.value.0;
      current := step.value.1;
      i := i + 1;
    }
    assert years[..i] == years;
    assert RunYears(years, inv, pages, fetch, reg) == Ok(inventory);
    return Ok((inventory, current));
  }

  /** `update_GSOD`: the inventory is loaded (or seeded from NOAA's copy),
      the years to check are chosen (seeding the log when there is none),
      and each year in turn is updated, its inventory written and then its
      log entry advanced to the clock's reading and the log written;
      finally the registry reconciled with the inventory is written. The
      run stops at the first failure, keeping what it wrote so far. */
  method UpdateGsod(store: ObjectStore, pages: string -> seq<Entry>, fetch: string -> seq<seq<string>>,
                    noaa: seq<Row>, history: seq<Station>, clock: nat -> int)
    returns (ok: bool)
    modifies store
    ensures ok <==> FinalInventory(old(store.objects), pages, fetch, noaa, history).Ok?
    ensures ok ==> FinalObjects(old(store.objects), pages, fetch, noaa, history, clock) == Ok(store.objects)
    ensures ok ==>
      var plan := Plan(old(store.objects), pages).value;
      var inv := FinalInventory(old(store.objects), pages, fetch, noaa, history).value;
      LogKey in store.objects && store.objects[LogKey] == LogCsv(AdvancedLog(plan.1, plan.0, clock)) &&
      (|plan.0| > 0 ==> InventoryKey in store.objects && store.objects[InventoryKey] == InventoryCsv(inv)) &&
      HistoryKey in store.objects && store.objects[HistoryKey] == HistoryCsv(UpdateMetadata(CleanHistoryMetadata(history), inv))
    ensures old(store.journal) <= store.journal && LogAfterInventory(store.journal[|old(store.journal)|..])
  {
    ghost var o := store.objects;
    var inventory := LoadIsdInventory(StoredInventory(store.objects), noaa);
    var plan := GetYearsToCheck(store, pages);
    assert plan == Plan(o, pages);
    ghost var j1 := old(store.journal);
    assert LogAfterInventory(store.journal[|j1|..]);
    if plan.Err? {
      return false;
    }
    var reg := CleanHistoryMetadata(history);
    assert FinalInventory(o, pages, fetch, noaa, history) == RunYears(plan.value.0, inventory, pages, fetch, reg);
    assert store.objects == PlannedObjects(o, pages);
    var run := RunLoop(plan.value.0, inventory, plan.value.1, store, reg, pages, fetch, clock, j1);
    if run.Err? {
      return false;
    }
    WellKnownKeys();
    OrderedAppend(j1, store.journal, Wrote(HistoryKey, HistoryCsv(UpdateMetadata(reg, run.value.0))));
    store.Put(HistoryKey, HistoryCsv(UpdateMetadata(reg, run.value.0)));
    return true;
  }

  /** An inventory stored by an earlier run keeps its IDs well-formed when
      it is read back. */
  lemma StoredWellFormed(stored: Table, noaa: seq<Row>)
    requires WellFormedIds(stored)
    ensures WellFormedIds(LoadIsdInventory(Some(stored), noaa))
  {
    var t := LoadIsdInventory(Some(stored), noaa);
    forall x | x in t ensures Get(x.row, Id) == Joined(Get(x.row, Usaf), Get(x.row, Wban)) {
      var i :| 0 <= i < |t| && t[i] == x;
      assert stored[i] in stored;
      assert Id in InventoryColumns && Usaf in InventoryColumns && Wban in InventoryColumns;
    }
  }

  /** A year keeps the inventory's IDs well-formed: pruning only drops
      rows and every summary upserted is well-formed. */
  lemma YearStepWellFormed(year: string, inv: Table, pages: string -> seq<Entry>,
                           fetch: string -> seq<seq<string>>, reg: seq<Station>)
    requires WellFormedIds(inv) && YearStep(year, inv, pages, fetch, reg).Ok?
    ensures WellFormedIds(YearStep(year, inv, pages, fetch, reg).value)
  {
    var files := NoaaFiles(year, pages(YearUrl(year)));
    var pruned := PruneYear(inv, year, ListedIds(files));
    var outs := ProcessAll(year, YearFiles(year, inv, pages), fetch, reg).value;
    forall out | out in outs ensures WellFormedIds([out.summary]) {
      SummaryWellFormed(out.rows);
    }
    UpsertAllWellFormed(pruned, outs);
  }

  /** The upserts of well-formed summaries keep the IDs well-formed. */
  lemma {:induction false} UpsertAllWellFormed(t: Table, outs: seq<Output>)
    requires WellFormedIds(t) && forall out :: out in outs ==> WellFormedIds([out.summary])
    ensures WellFormedIds(UpsertAll(t, outs))
  {
    if |outs| > 0 {
      var n := |outs| - 1;
      forall out | out in outs[..n] ensures WellFormedIds([out.summary]) {
        assert out in outs;
      }
      UpsertAllWellFormed(t, outs[..n]);
      assert outs[n] in outs;
      UpsertWellFormed(UpsertAll(t, outs[..n]), outs[n].summary);
    }
  }

  /** A whole run keeps the inventory's IDs well-formed. */
  lemma {:induction false} RunYearsWellFormed(years: seq<string>, inv: Table, pages: string -> seq<Entry>,
                                              fetch: string -> seq<seq<string>>, reg: seq<Station>)
    requires WellFormedIds(inv) && RunYears(years, inv, pages, fetch, reg).Ok?
    ensures WellFormedIds(RunYears(years, inv, pages, fetch, reg).value)
  {
    if |years| > 0 {
      var n := |years| - 1;
      RunYearsWellFormed(years[..n], inv, pages, fetch, reg);
      YearStepWellFormed(years[n], RunYears(years[..n], inv, pages, fetch, reg).value, pages, fetch, reg);
    }
  }

  /** The year's upserts add no row of any station and year. */
  lemma {:induction false} UpsertAllKeepsNoRow(t: Table, outs: seq<Output>, year: string, id: string)
    requires NoRowFor(t, year, id)
    requires forall out :: out in outs ==> InventoryStationsYear(out.rows) == Ok(out.summary)
    ensures NoRowFor(UpsertAll(t, outs), year, id)
  {
    if |outs| > 0 {
      var n := |outs| - 1;
      forall out | out in outs[..n] ensures InventoryStationsYear(out.rows) == Ok(out.summary) {
        assert out in outs;
      }
      UpsertAllKeepsNoRow(t, outs[..n], year, id);
      assert outs[n] in outs;
      UpsertKeepsNoRow(UpsertAll(t, outs[..n]), outs[n].rows, year, id);
    }
  }

  /** Once no row of a station and year is left, no later year brings one
      back: pruning only drops rows and every upsert adds a summary. */
  lemma {:induction false} RunYearsKeepsNoRow(years: seq<string>, inv: Table, pages: string -> seq<Entry>,
                                              fetch: string -> seq<seq<string>>, reg: seq<Station>,
                                              year: string, id: string)
    requires NoRowFor(inv, year, id) && RunYears(years, inv, pages, fetch, reg).Ok?
    ensures NoRowFor(RunYears(years, inv, pages, fetch, reg).value, year, id)
  {
    if |years| > 0 {
      var n := |years| - 1;
      RunYearsKeepsNoRow(years[..n], inv, pages, fetch, reg, year, id);
      var t := RunYears(years[..n], inv, pages, fetch, reg).value;
      var y := years[n];
      var files := NoaaFiles(y, pages(YearUrl(y)));
      UpsertAllKeepsNoRow(PruneYear(t, y, ListedIds(files)), ProcessAll(y, YearFiles(y, t, pages), fetch, reg).value, year, id);
    }
  }

  /** An inventory read back from the store keeps every cell of `ID` and
      `YEAR`, so a station-year with no row stays without one. */
  lemma StoredKeepsNoRow(stored: Table, noaa: seq<Row>, year: string, id: string)
    requires NoRowFor(stored, year, id)
    ensures NoRowFor(LoadIsdInventory(Some(stored), noaa), year, id)
  {
    var t := LoadIsdInventory(Some(stored), noaa);
    forall x | x in t && OfYear(x, year) ensures Get(x.row, Id) != Text(id) {
      var i :| 0 <= i < |t| && t[i] == x;
      assert stored[i] in stored;
      assert Id in InventoryColumns && YearKey in InventoryColumns;
    }
  }

  /** A station-year left without inventory row is never fetched again, in
      any later year of this run or of a later run reading the inventory
      back: its file is compared with NaT, whatever its timestamp. */
  lemma NeverFetchedAgain(years: seq<string>, inv: Table, pages: string -> seq<Entry>,
                          fetch: string -> seq<seq<string>>, reg: seq<Station>,
                          year: string, f: NoaaFile, files: seq<NoaaFile>, ids: set<string>)
    requires NoRowFor(inv, year, f.id) && RunYears(years, inv, pages, fetch, reg).Ok?
    ensures forall lu :: Merged(f, lu) !in StaleFiles(files, PruneYear(RunYears(years, inv, pages, fetch, reg).value, year, ids), year)
  {
    RunYearsKeepsNoRow(years, inv, pages, fetch, reg, year, f.id);
    FirstTimeNeverStale(files, PruneYear(RunYears(years, inv, pages, fetch, reg).value, year, ids), year, f);
  }

  /** The registry update_GSOD writes lists exactly the stations of the
      inventory it ends with, whenever the inventory it starts from has
      well-formed IDs: always on a first run, seeded from NOAA's copy, and
      on a run reading back an inventory stored well-formed. */
  lemma HistoryMatchesInventory(o: map<string, Blob>, pages: string -> seq<Entry>, fetch: string -> seq<seq<string>>,
                                noaa: seq<Row>, history: seq<Station>)
    requires StoredInventory(o).None? || WellFormedIds(StoredInventory(o).value)
    requires FinalInventory(o, pages, fetch, noaa, history).Ok?
    ensures var inv := FinalInventory(o, pages, fetch, noaa, history).value;
      IdsOf(UpdateMetadata(CleanHistoryMetadata(history), inv)) == InventoryIds(inv)
  {
    if StoredInventory(o).None? {
      SeededWellFormed(noaa);
    } else {
      StoredWellFormed(StoredInventory(o).value, noaa);
    }
    var reg := CleanHistoryMetadata(history);
    RunYearsWellFormed(Plan(o, pages).value.0, StartInventory(o, noaa), pages, fetch, reg);
    UpdateMetadataIds(reg, FinalInventory(o, pages, fetch, noaa, history).value);
  }
}
