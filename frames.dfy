/** The GSOD record transformer of clean_and_export_op_file.py (and of its
    earlier draft op_to_dataframe.py): a `.op` file loaded into a frame whose
    columns are then added, rewritten and deleted in place by
    `unpack_FRSHTT`, `unpack_date_info`, `unpack_quality_flags`, the metadata
    join, `missing_codes_to_nan` and `reorganize_columns`.

    A `Frame` is the pandas DataFrame: a set of columns and a sequence of
    rows, each row holding a cell for every column. Each step is a method
    whose postcondition gives the new rows as a per-row function of the old
    ones; those per-row functions compose into `CleanRow`, the canonical row
    of one data line, whose fields are stated in the lemmas at the end. */
module Frames {
  import opened Common
  import opened Records
  import opened Stations

  /** The 22 whitespace-separated fields of a data line, in order. */
  const OpColumns: seq<Col> := [
    UsafIdCode, WbanIdCode, Yrmoda,
    MeanTemp, MeanTempCount, MeanDewpoint, MeanDewpointCount,
    MeanSeaLevelPressure, MeanSeaLevelPressureCount,
    MeanStationPressure, MeanStationPressureCount,
    MeanVisibility, MeanVisibilityCount, MeanWindspeed, MeanWindspeedCount,
    MaxWindspeed, MaxGust, MaxTemp, MinTemp, Precipitation, SnowDepth, Frshtt]

  const OpColumnSet: set<Col> := {
    UsafIdCode, WbanIdCode, Yrmoda,
    MeanTemp, MeanTempCount, MeanDewpoint, MeanDewpointCount,
    MeanSeaLevelPressure, MeanSeaLevelPressureCount,
    MeanStationPressure, MeanStationPressureCount,
    MeanVisibility, MeanVisibilityCount, MeanWindspeed, MeanWindspeedCount,
    MaxWindspeed, MaxGust, MaxTemp, MinTemp, Precipitation, SnowDepth, Frshtt}

  /** The six weather events of FRSHTT, in the order of the code's characters. */
  const EventColumns: seq<Col> := [Fog, RainOrDrizzle, SnowOrIce, Hail, Thunder, Tornado]

  /** The columns `missing_codes_to_nan` leaves alone. */
  const IdColumns: set<Col> := {UsafIdCode, WbanIdCode, IdCode}

  /** The 38 columns `reorganize_columns` keeps (`Station_Name` is not among them). */
  const HeaderSet: set<Col> := {
    IdCode, UsafIdCode, WbanIdCode, Elevation, CountryCode, Latitude, Longitude,
    Date, Year, Month, Day,
    MeanTemp, MeanTempCount, MeanDewpoint, MeanDewpointCount,
    MeanSeaLevelPressure, MeanSeaLevelPressureCount,
    MeanStationPressure, MeanStationPressureCount,
    MeanVisibility, MeanVisibilityCount, MeanWindspeed, MeanWindspeedCount,
    MaxWindspeed, MaxGust, MaxTemp, MaxTempQualityFlag, MinTemp, MinTempQualityFlag,
    Precipitation, PrecipFlag, SnowDepth,
    Fog, RainOrDrizzle, SnowOrIce, Hail, Thunder, Tornado}

  /** The order `reorganize_columns` puts the header columns in. */
  const HeaderOrder: seq<Col> := [
    IdCode, UsafIdCode, WbanIdCode, Elevation, CountryCode,
    Latitude, Longitude, Date, Year, Month, Day,
    MeanTemp, MeanTempCount, MeanDewpoint, MeanDewpointCount,
    MeanSeaLevelPressure, MeanSeaLevelPressureCount,
    MeanStationPressure, MeanStationPressureCount,
    MeanVisibility, MeanVisibilityCount, MeanWindspeed,
    MeanWindspeedCount, MaxWindspeed, MaxGust, MaxTemp,
    MaxTempQualityFlag, MinTemp, MinTempQualityFlag,
    Precipitation, PrecipFlag, SnowDepth, Fog,
    RainOrDrizzle, SnowOrIce, Hail, Thunder,
    Tornado]

  /** The header order lists exactly the header columns. */
  lemma HeaderOrderColumns()
    ensures forall c :: c in HeaderOrder <==> c in HeaderSet
  {
    forall c | c in HeaderSet ensures c in HeaderOrder {
    }
  }

  /** The loaded frame's labels are the 22 fields of a data line. */
  lemma OpColumnsLabels()
    ensures forall c :: c in OpColumns <==> c in OpColumnSet
  {
  }

  // ---------------------------------------------------------------------
  // Column order

  /** The column order after `df[c] = ...`: a new column goes last, an
      existing one keeps its place. */
  function WithColumn(order: seq<Col>, c: Col): seq<Col> {
    if c in order then order else order + [c]
  }

  /** An assignment keeps every column where it was and the assigned column
      is present afterwards, last if it is new. */
  lemma WithColumnSpec(order: seq<Col>, c: Col)
    ensures var r := WithColumn(order, c);
      && c in r && r[..|order|] == order
      && (forall x :: x in r <==> x in order || x == c)
      && (c !in order ==> r[|r| - 1] == c)
  {
  }

  /** The column order after `df[c] = ...` for each column of `cs` in turn. */
  function WithColumns(order: seq<Col>, cs: seq<Col>): seq<Col> {
    if |cs| == 0 then order else WithColumn(WithColumns(order, cs[..|cs| - 1]), cs[|cs| - 1])
  }

  /** After the assignments every earlier column and every assigned one is
      present, and no other. */
  lemma {:induction false} WithColumnsSpec(order: seq<Col>, cs: seq<Col>)
    ensures forall x :: x in WithColumns(order, cs) <==> x in order || x in cs
  {
    if |cs| > 0 {
      var n := |cs| - 1;
      WithColumnsSpec(order, cs[..n]);
      WithColumnSpec(WithColumns(order, cs[..n]), cs[n]);
      assert cs == cs[..n] + [cs[n]];
    }
  }

  /** The column order after `del df[c]`: the others keep their order. */
  function WithoutColumn(order: seq<Col>, c: Col): seq<Col> {
    if |order| == 0 then []
    else (if order[0] == c then [] else [order[0]]) + WithoutColumn(order[1..], c)
  }

  /** A deletion removes exactly the deleted column, and changes nothing
      when the column is absent. */
  lemma {:induction false} WithoutColumnSpec(order: seq<Col>, c: Col)
    ensures forall x :: x in WithoutColumn(order, c) <==> x in order && x != c
    ensures c !in order ==> WithoutColumn(order, c) == order
  {
    if |order| > 0 {
      WithoutColumnSpec(order[1..], c);
      assert order == [order[0]] + order[1..];
    }
  }

  /** The column order after the first `k` event columns of `unpack_FRSHTT`. */
  function EventsOrder(order: seq<Col>, k: nat): seq<Col>
    requires k <= 6
  {
    if k == 0 then order else WithColumn(EventsOrder(order, k - 1), EventColumns[k - 1])
  }

  /** The column order after the first `k` turns of `unpack_quality_flags`'
      loop: the flag column, then the stripped value, of each temperature. */
  function TempFlagsOrder(order: seq<Col>, k: nat): seq<Col>
    requires k <= 2
  {
    if k == 0 then order
    else WithColumn(WithColumn(TempFlagsOrder(order, k - 1), FlagColumn(TempColumns[k - 1])), TempColumns[k - 1])
  }

  /** The column order after `unpack_date_info`. */
  function DatesOrder(order: seq<Col>): seq<Col> {
    WithoutColumn(WithColumn(WithColumn(WithColumn(WithColumn(order, Year), Month), Day), Date), Yrmoda)
  }

  /** The column order after `unpack_quality_flags`. */
  function FlagsOrder(order: seq<Col>): seq<Col> {
    WithColumn(WithColumn(TempFlagsOrder(order, 2), PrecipFlag), Precipitation)
  }

  /** The column order after the ID column and the three unpacking steps. */
  function UnpackedOrder(order: seq<Col>): seq<Col> {
    FlagsOrder(DatesOrder(WithoutColumn(EventsOrder(WithColumn(order, IdCode), 6), Frshtt)))
  }

  /** The five registry columns in the order `raw_op_to_clean_dataframe`
      assigns them. */
  const MetaOrder: seq<Col> := [Elevation, StationName, CountryCode, Latitude, Longitude]

  // ---------------------------------------------------------------------
  // Loading a .op file

  /** Token `j` of a line, NaN past its end (pandas pads short rows). */
  function Token(t: seq<string>, j: nat): Cell {
    if j < |t| then Text(t[j]) else Null
  }

  /** The position of a `.op` column in a data line. */
  function Position(c: Col): nat {
    match c
    case UsafIdCode => 0
    case WbanIdCode => 1
    case Yrmoda => 2
    case MeanTemp => 3
    case MeanTempCount => 4
    case MeanDewpoint => 5
    case MeanDewpointCount => 6
    case MeanSeaLevelPressure => 7
    case MeanSeaLevelPressureCount => 8
    case MeanStationPressure => 9
    case MeanStationPressureCount => 10
    case MeanVisibility => 11
    case MeanVisibilityCount => 12
    case MeanWindspeed => 13
    case MeanWindspeedCount => 14
    case MaxWindspeed => 15
    case MaxGust => 16
    case MaxTemp => 17
    case MinTemp => 18
    case Precipitation => 19
    case SnowDepth => 20
    case Frshtt => 21
    case _ => 22
  }

  /** One data line as a row of the 22 named columns: the column at
      position `j` holds token `j`. */
  function LoadRow(t: seq<string>): Row {
    map c: Col | Position(c) < |OpColumns| :: Token(t, Position(c))
  }

  /** The cell of a layout column in a loaded row is its token. */
  lemma LoadRowCell(t: seq<string>, c: Col)
    requires Position(c) < |OpColumns|
    ensures Get(LoadRow(t), c) == Token(t, Position(c))
  {
  }

  /** A loaded row has exactly the 22 columns of the layout. */
  lemma LoadRowKeys(t: seq<string>)
    ensures LoadRow(t).Keys == OpColumnSet
  {
  }

  /** The lines after the header line. */
  function DataLines(lines: seq<seq<string>>): seq<seq<string>> {
    if |lines| == 0 then [] else lines[1..]
  }

  /** The number of columns pandas builds from ragged token rows: the longest row. */
  function MaxWidth(data: seq<seq<string>>): (w: nat)
    ensures forall i :: 0 <= i < |data| ==> |data[i]| <= w
    ensures |data| == 0 ==> w == 0
    ensures |data| > 0 ==> exists i :: 0 <= i < |data| && |data[i]| == w
  {
    if |data| == 0 then 0
    else
      var w := MaxWidth(data[1..]);
      assert forall i :: 1 <= i < |data| ==> data[i] == data[1..][i - 1];
      if |data[0]| >= w then |data[0]| else w
  }

  /** `load_op_into_dataframe`: the header line is skipped and the 22 column
      names are assigned, which fails unless the widest line has exactly 22
      tokens (in particular when there is no data line). */
  function LoadOp(lines: seq<seq<string>>): Result<seq<Row>> {
    var data := DataLines(lines);
    if MaxWidth(data) != |OpColumns| then Err(WidthMismatch)
    else Ok(LoadRows(data))
  }

  /** The loaded row of each data line. */
  function LoadRows(data: seq<seq<string>>): (r: seq<Row>)
    ensures |r| == |data| && forall i :: 0 <= i < |data| ==> r[i] == LoadRow(data[i])
  {
    seq(|data|, i requires 0 <= i < |data| => LoadRow(data[i]))
  }

  // ---------------------------------------------------------------------
  // The per-row effect of each step

  /** The value a lambda gives, or NaN where it raises (never used on a
      successful path). */
  function Applied(op: CellOp, c: Cell): Cell {
    var a := Apply(op, c);
    if a.Some? then a.value else Null
  }

  /** `df[dst] = df[src].apply(op)` on every row. */
  function MappedColumn(rows: seq<Row>, src: Col, dst: Col, op: CellOp): (r: seq<Row>)
    ensures |r| == |rows|
    ensures forall i :: 0 <= i < |rows| ==> r[i] == rows[i][dst := Applied(op, Get(rows[i], src))]
  {
    seq(|rows|, i requires 0 <= i < |rows| => rows[i][dst := Applied(op, Get(rows[i], src))])
  }

  /** The lambda raises on no row. */
  predicate Appliable(rows: seq<Row>, src: Col, op: CellOp) {
    forall i :: 0 <= i < |rows| ==> Apply(op, Get(rows[i], src)).Some?
  }

  /** String concatenation of two columns with '-' between, NaN if either is NaN. */
  function Joined(a: Cell, b: Cell): Cell {
    if a.Text? && b.Text? then Text(a.s + "-" + b.s) else Null
  }

  /** `df['ID_Code'] = df['USAF_ID_Code'] + '-' + df['WBAN_ID_Code']`. */
  function WithId(r: Row): Row {
    r[IdCode := Joined(Get(r, UsafIdCode), Get(r, WbanIdCode))]
  }

  function EventPrefix(k: nat): (p: set<Col>)
    requires k <= |EventColumns|
    ensures Frshtt !in p
    ensures forall j :: 0 <= j < k ==> EventColumns[j] in p
  {
    if k == 0 then {} else EventPrefix(k - 1) + {EventColumns[k - 1]}
  }

  lemma EventPrefixAll()
    ensures EventPrefix(6) == {Fog, RainOrDrizzle, SnowOrIce, Hail, Thunder, Tornado}
  {
    assert EventPrefix(1) == {Fog};
    assert EventPrefix(2) == {Fog, RainOrDrizzle};
    assert EventPrefix(3) == {Fog, RainOrDrizzle, SnowOrIce};
    assert EventPrefix(4) == {Fog, RainOrDrizzle, SnowOrIce, Hail};
    assert EventPrefix(5) == {Fog, RainOrDrizzle, SnowOrIce, Hail, Thunder};
  }

  /** The row after the first `k` rounds of the FRSHTT loop. */
  function EventsUpTo(r: Row, k: nat): (r': Row)
    requires k <= |EventColumns|
    ensures r'.Keys == r.Keys + EventPrefix(k)
    ensures forall j :: 0 <= j < k ==> r'[EventColumns[j]] == Applied(EventAt(j), Get(r, Frshtt))
    ensures forall c :: c !in EventPrefix(k) ==> Get(r', c) == Get(r, c)
    ensures Get(r', Frshtt) == Get(r, Frshtt)
  {
    if k == 0 then r
    else
      var prev := EventsUpTo(r, k - 1);
      prev[EventColumns[k - 1] := Applied(EventAt(k - 1), Get(prev, Frshtt))]
  }

  /** `unpack_FRSHTT`: the six event columns added, FRSHTT deleted. */
  function EventsRow(r: Row): Row {
    var f := Get(r, Frshtt);
    r[Fog := Applied(EventAt(0), f)][RainOrDrizzle := Applied(EventAt(1), f)][SnowOrIce := Applied(EventAt(2), f)]
     [Hail := Applied(EventAt(3), f)][Thunder := Applied(EventAt(4), f)][Tornado := Applied(EventAt(5), f)] - {Frshtt}
  }

  /** The six rounds of the FRSHTT loop, then the deletion, are `EventsRow`. */
  lemma EventsLoopRow(r: Row)
    ensures EventsUpTo(r, |EventColumns|) - {Frshtt} == EventsRow(r)
  {
    EventPrefixAll();
  }

  predicate EventsReadable(r: Row) {
    Get(r, Frshtt).Text? && |Get(r, Frshtt).s| >= 6
  }

  /** `unpack_date_info` with its default arguments (`yrmoda`, no prefix). */
  function DatesRow(r: Row): Row {
    var x := Get(r, Yrmoda);
    r[Year := Applied(YearPart, x)][Month := Applied(MonthPart, x)]
     [Day := Applied(DayPart, x)][Date := Applied(JoinedDate, x)] - {Yrmoda}
  }

  const TempColumns: seq<Col> := [MaxTemp, MinTemp]

  function FlagColumn(c: Col): Col {
    if c == MaxTemp then MaxTempQualityFlag else MinTempQualityFlag
  }

  /** One round of the quality-flag loop for column `c`. */
  function StarStep(r: Row, c: Col): Row {
    r[FlagColumn(c) := Applied(StarFlag, Get(r, c))][c := Applied(StripStars, Get(r, c))]
  }

  function FlagPrefix(k: nat): set<Col> {
    if k == 0 then {} else if k == 1 then {MaxTempQualityFlag} else {MaxTempQualityFlag, MinTempQualityFlag}
  }

  /** The row after the first `k` rounds of the quality-flag loop: the
      temperatures not yet visited and the precipitation are untouched. */
  function TempFlagsUpTo(r: Row, k: nat): (r': Row)
    requires k <= |TempColumns|
    ensures forall j :: k <= j < |TempColumns| ==> Get(r', TempColumns[j]) == Get(r, TempColumns[j])
    ensures Get(r', Precipitation) == Get(r, Precipitation)
  {
    if k == 0 then r else StarStep(TempFlagsUpTo(r, k - 1), TempColumns[k - 1])
  }

  /** `unpack_quality_flags`: both temperature rounds, then the
      precipitation flag split off. */
  function FlagsRow(r: Row): Row {
    var mx, mn, p := Get(r, MaxTemp), Get(r, MinTemp), Get(r, Precipitation);
    r[MaxTempQualityFlag := Applied(StarFlag, mx)][MaxTemp := Applied(StripStars, mx)]
     [MinTempQualityFlag := Applied(StarFlag, mn)][MinTemp := Applied(StripStars, mn)]
     [PrecipFlag := Applied(LastChar, p)][Precipitation := Applied(AllButLast, p)]
  }

  /** The two rounds of the quality-flag loop. */
  lemma TempFlagsBoth(d: Row)
    ensures TempFlagsUpTo(d, |TempColumns|) == StarStep(StarStep(d, MaxTemp), MinTemp)
  {
    assert TempColumns[0] == MaxTemp && TempColumns[1] == MinTemp;
    assert TempFlagsUpTo(d, 1) == StarStep(d, MaxTemp);
  }

  /** The two rounds of the quality-flag loop, then the precipitation split,
      are `FlagsRow`. */
  lemma FlagsLoopRow(r: Row)
    ensures PrecipRow(TempFlagsUpTo(r, |TempColumns|)) == FlagsRow(r)
  {
    TempFlagsBoth(r);
  }

  /** The last character of Precipitation split off into Precip_Flag. */
  function PrecipRow(r: Row): Row {
    var p := Get(r, Precipitation);
    r[PrecipFlag := Applied(LastChar, p)][Precipitation := Applied(AllButLast, p)]
  }

  predicate NonEmptyText(c: Cell) {
    c.Text? && |c.s| > 0
  }

  predicate FlagsReadable(r: Row) {
    NonEmptyText(Get(r, MaxTemp)) && NonEmptyText(Get(r, MinTemp)) && NonEmptyText(Get(r, Precipitation))
  }

  /** `get_metadata` with the station ID taken from a cell: a NaN ID is not
      in the registry's index. */
  function MetaCell(id: Cell, reg: seq<Station>, f: MetaField): Cell {
    if id.Text? then GetMetadata(id.s, reg, f) else Null
  }

  /** The five registry columns, each the same value on every row. */
  function MetaRow(r: Row, id: Cell, reg: seq<Station>): Row {
    r[Elevation := MetaCell(id, reg, ElevField)]
     [StationName := MetaCell(id, reg, NameField)]
     [CountryCode := MetaCell(id, reg, CtryField)]
     [Latitude := MetaCell(id, reg, LatField)]
     [Longitude := MetaCell(id, reg, LonField)]
  }

  /** `missing_codes_to_nan` on one row. */
  function NullMissing(r: Row): Row {
    map c | c in r :: if c in IdColumns then r[c] else NullIfMissing(r[c])
  }

  /** `reorganize_columns` on one row. */
  function Reorganized(r: Row): Row {
    map c | c in r && c in HeaderSet :: r[c]
  }

  // ---------------------------------------------------------------------
  // Each step on every row

  function WithIdRows(rs: seq<Row>): (r: seq<Row>)
    ensures |r| == |rs| && forall i :: 0 <= i < |rs| ==> r[i] == WithId(rs[i])
  {
    seq(|rs|, i requires 0 <= i < |rs| => WithId(rs[i]))
  }

  function EventsRows(rs: seq<Row>): (r: seq<Row>)
    ensures |r| == |rs| && forall i :: 0 <= i < |rs| ==> r[i] == EventsRow(rs[i])
  {
    seq(|rs|, i requires 0 <= i < |rs| => EventsRow(rs[i]))
  }

  function DatesRows(rs: seq<Row>): (r: seq<Row>)
    ensures |r| == |rs| && forall i :: 0 <= i < |rs| ==> r[i] == DatesRow(rs[i])
  {
    seq(|rs|, i requires 0 <= i < |rs| => DatesRow(rs[i]))
  }

  function FlagsRows(rs: seq<Row>): (r: seq<Row>)
    ensures |r| == |rs| && forall i :: 0 <= i < |rs| ==> r[i] == FlagsRow(rs[i])
  {
    seq(|rs|, i requires 0 <= i < |rs| => FlagsRow(rs[i]))
  }

  function MetaRows(rs: seq<Row>, id: Cell, reg: seq<Station>): (r: seq<Row>)
    ensures |r| == |rs| && forall i :: 0 <= i < |rs| ==> r[i] == MetaRow(rs[i], id, reg)
  {
    seq(|rs|, i requires 0 <= i < |rs| => MetaRow(rs[i], id, reg))
  }

  function NullMissingRows(rs: seq<Row>): (r: seq<Row>)
    ensures |r| == |rs| && forall i :: 0 <= i < |rs| ==> r[i] == NullMissing(rs[i])
  {
    seq(|rs|, i requires 0 <= i < |rs| => NullMissing(rs[i]))
  }

  function ReorganizedRows(rs: seq<Row>): (r: seq<Row>)
    ensures |r| == |rs| && forall i :: 0 <= i < |rs| ==> r[i] == Reorganized(rs[i])
  {
    seq(|rs|, i requires 0 <= i < |rs| => Reorganized(rs[i]))
  }

  /** `del df[c]` on every row. */
  function DroppedRows(rs: seq<Row>, c: Col): (r: seq<Row>)
    ensures |r| == |rs| && forall i :: 0 <= i < |rs| ==> r[i] == rs[i] - {c}
  {
    seq(|rs|, i requires 0 <= i < |rs| => rs[i] - {c})
  }

  predicate AllEventsReadable(rs: seq<Row>) {
    forall i :: 0 <= i < |rs| ==> EventsReadable(rs[i])
  }

  predicate AllDated(rs: seq<Row>) {
    forall i :: 0 <= i < |rs| ==> Get(rs[i], Yrmoda).Text?
  }

  predicate AllFlagsReadable(rs: seq<Row>) {
    forall i :: 0 <= i < |rs| ==> FlagsReadable(rs[i])
  }

  // ---------------------------------------------------------------------
  // The loops of `unpack_FRSHTT` and `unpack_quality_flags`, round by round

  function EventsRowsUpTo(rs: seq<Row>, k: nat): (r: seq<Row>)
    requires k <= |EventColumns|
    ensures |r| == |rs| && forall i :: 0 <= i < |rs| ==> r[i] == EventsUpTo(rs[i], k)
  {
    seq(|rs|, i requires 0 <= i < |rs| => EventsUpTo(rs[i], k))
  }

  /** Every code is a string longer than `k`. */
  predicate CodesLongerThan(rs: seq<Row>, k: nat) {
    forall i :: 0 <= i < |rs| ==> Get(rs[i], Frshtt).Text? && |Get(rs[i], Frshtt).s| > k
  }

  /** Round `k` of the FRSHTT loop reads character `k` of the original code:
      it succeeds exactly when every code is longer than `k`, and then
      produces the rows of round `k + 1`. */
  lemma EventsLoopStep(rs: seq<Row>, k: nat)
    requires k < |EventColumns|
    ensures Appliable(EventsRowsUpTo(rs, k), Frshtt, EventAt(k)) <==> CodesLongerThan(rs, k)
    ensures MappedColumn(EventsRowsUpTo(rs, k), Frshtt, EventColumns[k], EventAt(k)) == EventsRowsUpTo(rs, k + 1)
  {
    var t := EventsRowsUpTo(rs, k);
    assert forall i :: 0 <= i < |rs| ==> Get(t[i], Frshtt) == Get(rs[i], Frshtt);
  }

  /** Deleting FRSHTT after the sixth round gives `unpack_FRSHTT`'s rows. */
  lemma EventsDrop(rs: seq<Row>)
    ensures DroppedRows(EventsRowsUpTo(rs, |EventColumns|), Frshtt) == EventsRows(rs)
  {
    var d, e := DroppedRows(EventsRowsUpTo(rs, |EventColumns|), Frshtt), EventsRows(rs);
    forall i | 0 <= i < |rs|
      ensures d[i] == e[i]
    {
      EventsLoopRow(rs[i]);
    }
  }

  function TempFlagsRowsUpTo(rs: seq<Row>, k: nat): (r: seq<Row>)
    requires k <= |TempColumns|
    ensures |r| == |rs| && forall i :: 0 <= i < |rs| ==> r[i] == TempFlagsUpTo(rs[i], k)
  {
    seq(|rs|, i requires 0 <= i < |rs| => TempFlagsUpTo(rs[i], k))
  }

  /** Column `c` holds a non-empty string on every row. */
  predicate AllNonEmpty(rs: seq<Row>, c: Col) {
    forall i :: 0 <= i < |rs| ==> NonEmptyText(Get(rs[i], c))
  }

  /** Round `k` of the quality-flag loop reads the original temperature: the
      flag lambda succeeds exactly when every value is a non-empty string,
      the strip lambda then cannot fail, and the two give the rows of round
      `k + 1`. */
  lemma TempFlagsLoopStep(rs: seq<Row>, k: nat)
    requires k < |TempColumns|
    ensures var t, c := TempFlagsRowsUpTo(rs, k), TempColumns[k];
      && (Appliable(t, c, StarFlag) <==> AllNonEmpty(rs, c))
      && (Appliable(t, c, StarFlag) ==> Appliable(MappedColumn(t, c, FlagColumn(c), StarFlag), c, StripStars))
      && MappedColumn(MappedColumn(t, c, FlagColumn(c), StarFlag), c, c, StripStars) == TempFlagsRowsUpTo(rs, k + 1)
  {
    TempFlagsAppliable(rs, k);
    TempFlagsRound(rs, k);
  }

  /** The flag lambda of round `k` succeeds exactly when every loaded value
      is a non-empty string, and the strip lambda then cannot fail. */
  lemma TempFlagsAppliable(rs: seq<Row>, k: nat)
    requires k < |TempColumns|
    ensures var t, c := TempFlagsRowsUpTo(rs, k), TempColumns[k];
      && (Appliable(t, c, StarFlag) <==> AllNonEmpty(rs, c))
      && (Appliable(t, c, StarFlag) ==> Appliable(MappedColumn(t, c, FlagColumn(c), StarFlag), c, StripStars))
  {
    TempFlagsReads(rs, k);
  }

  /** Before and after the flag assignment of round `k`, the temperature
      column holds its loaded value. */
  lemma TempFlagsReads(rs: seq<Row>, k: nat)
    requires k < |TempColumns|
    ensures var t, c := TempFlagsRowsUpTo(rs, k), TempColumns[k];
      var m1 := MappedColumn(t, c, FlagColumn(c), StarFlag);
      forall i :: 0 <= i < |rs| ==> Get(t[i], c) == Get(rs[i], c) && Get(m1[i], c) == Get(rs[i], c)
  {
    var t, c := TempFlagsRowsUpTo(rs, k), TempColumns[k];
    forall i | 0 <= i < |rs|
      ensures Get(t[i], c) == Get(rs[i], c)
    {
      assert t[i] == TempFlagsUpTo(rs[i], k);
    }
  }

  /** The two assignments of round `k` are `StarStep` on every row. */
  lemma TempFlagsRound(rs: seq<Row>, k: nat)
    requires k < |TempColumns|
    ensures var t, c := TempFlagsRowsUpTo(rs, k), TempColumns[k];
      MappedColumn(MappedColumn(t, c, FlagColumn(c), StarFlag), c, c, StripStars) == TempFlagsRowsUpTo(rs, k + 1)
  {
    var t, c := TempFlagsRowsUpTo(rs, k), TempColumns[k];
    var m2 := MappedColumn(MappedColumn(t, c, FlagColumn(c), StarFlag), c, c, StripStars);
    var next := TempFlagsRowsUpTo(rs, k + 1);
    forall i | 0 <= i < |rs|
      ensures m2[i] == next[i]
    {
      assert m2[i] == StarStep(t[i], c);
    }
  }

  function PrecipRows(rs: seq<Row>): (r: seq<Row>)
    ensures |r| == |rs| && forall i :: 0 <= i < |rs| ==> r[i] == PrecipRow(rs[i])
  {
    seq(|rs|, i requires 0 <= i < |rs| => PrecipRow(rs[i]))
  }

  /** The precipitation split reads the field as it was before the loop,
      and the whole step is `FlagsRow` on every row. */
  lemma PrecipStep(rs: seq<Row>)
    ensures AllNonEmpty(TempFlagsRowsUpTo(rs, 2), Precipitation) <==> AllNonEmpty(rs, Precipitation)
    ensures PrecipRows(TempFlagsRowsUpTo(rs, 2)) == FlagsRows(rs)
  {
    var t := TempFlagsRowsUpTo(rs, 2);
    forall i | 0 <= i < |rs|
      ensures Get(t[i], Precipitation) == Get(rs[i], Precipitation)
    {
      assert t[i] == TempFlagsUpTo(rs[i], 2);
    }
    var p, f := PrecipRows(t), FlagsRows(rs);
    forall i | 0 <= i < |rs|
      ensures p[i] == f[i]
    {
      FlagsLoopRow(rs[i]);
    }
  }

  /** The precipitation split as two column assignments. */
  lemma PrecipAssignments(rs: seq<Row>)
    ensures Appliable(rs, Precipitation, LastChar) <==> AllNonEmpty(rs, Precipitation)
    ensures Appliable(rs, Precipitation, LastChar) ==>
      Appliable(MappedColumn(rs, Precipitation, PrecipFlag, LastChar), Precipitation, AllButLast)
    ensures MappedColumn(MappedColumn(rs, Precipitation, PrecipFlag, LastChar), Precipitation, Precipitation, AllButLast)
         == PrecipRows(rs)
  {
    var m1 := MappedColumn(rs, Precipitation, PrecipFlag, LastChar);
    forall i | 0 <= i < |rs|
      ensures Get(m1[i], Precipitation) == Get(rs[i], Precipitation)
    {
    }
  }

  /** The four assignments of `unpack_date_info` all read the untouched
      `yrmoda` cell: they succeed together, exactly on dated rows, and with
      the deletion give the dated rows. */
  lemma DatesAssignments(rs: seq<Row>)
    ensures Appliable(rs, Yrmoda, YearPart) <==> AllDated(rs)
    ensures var m1 := MappedColumn(rs, Yrmoda, Year, YearPart);
      var m2 := MappedColumn(m1, Yrmoda, Month, MonthPart);
      var m3 := MappedColumn(m2, Yrmoda, Day, DayPart);
      && (AllDated(rs) ==> Appliable(m1, Yrmoda, MonthPart) && Appliable(m2, Yrmoda, DayPart) && Appliable(m3, Yrmoda, JoinedDate))
      && DroppedRows(MappedColumn(m3, Yrmoda, Date, JoinedDate), Yrmoda) == DatesRows(rs)
  {
    var m1 := MappedColumn(rs, Yrmoda, Year, YearPart);
    var m2 := MappedColumn(m1, Yrmoda, Month, MonthPart);
    var m3 := MappedColumn(m2, Yrmoda, Day, DayPart);
    forall i | 0 <= i < |rs|
      ensures Get(m1[i], Yrmoda) == Get(rs[i], Yrmoda)
      ensures Get(m2[i], Yrmoda) == Get(rs[i], Yrmoda)
      ensures Get(m3[i], Yrmoda) == Get(rs[i], Yrmoda)
    {
    }
  }

  /** The quality flags are readable exactly when the three fields are. */
  lemma FlagsReadableFields(rs: seq<Row>)
    ensures AllFlagsReadable(rs) <==>
      AllNonEmpty(rs, MaxTemp) && AllNonEmpty(rs, MinTemp) && AllNonEmpty(rs, Precipitation)
  {
  }

  /** What each step reads is the cell it had on the loaded row. */
  lemma StepsOutcome(rs: seq<Row>)
    ensures AllEventsReadable(WithIdRows(rs)) <==> AllEventsReadable(rs)
    ensures AllDated(EventsRows(WithIdRows(rs))) <==> AllDated(rs)
    ensures AllFlagsReadable(DatesRows(EventsRows(WithIdRows(rs)))) <==> AllFlagsReadable(rs)
  {
    EventsOutcome(rs);
    DatesOutcome(rs);
    FlagsOutcome(rs);
  }

  lemma EventsOutcome(rs: seq<Row>)
    ensures AllEventsReadable(WithIdRows(rs)) <==> AllEventsReadable(rs)
  {
    var r1 := WithIdRows(rs);
    forall i | 0 <= i < |rs|
      ensures EventsReadable(r1[i]) <==> EventsReadable(rs[i])
    {
      RowStepsOutcome(rs[i]);
    }
  }

  lemma DatesOutcome(rs: seq<Row>)
    ensures AllDated(EventsRows(WithIdRows(rs))) <==> AllDated(rs)
  {
    var r2 := EventsRows(WithIdRows(rs));
    forall i | 0 <= i < |rs|
      ensures Get(r2[i], Yrmoda) == Get(rs[i], Yrmoda)
    {
      RowStepsOutcome(rs[i]);
    }
  }

  lemma FlagsOutcome(rs: seq<Row>)
    ensures AllFlagsReadable(DatesRows(EventsRows(WithIdRows(rs)))) <==> AllFlagsReadable(rs)
  {
    var r3 := DatesRows(EventsRows(WithIdRows(rs)));
    forall i | 0 <= i < |rs|
      ensures FlagsReadable(r3[i]) <==> FlagsReadable(rs[i])
    {
      RowStepsOutcome(rs[i]);
    }
  }

  /** The FRSHTT code, the date and the three flag fields each step reads
      are those of the loaded row. */
  lemma RowStepsOutcome(r: Row)
    ensures EventsReadable(WithId(r)) <==> EventsReadable(r)
    ensures Get(EventsRow(WithId(r)), Yrmoda) == Get(r, Yrmoda)
    ensures FlagsReadable(DatesRow(EventsRow(WithId(r)))) <==> FlagsReadable(r)
  {
    var w := WithId(r);
    assert Get(w, Frshtt) == Get(r, Frshtt) && Get(w, Yrmoda) == Get(r, Yrmoda);
    assert FlagsReadable(w) <==> FlagsReadable(r);
    EarlyStepsKeep(w);
  }

  /** The columns after the ID column and the three unpacking steps. */
  function UnpackedColumns(): set<Col> {
    OpColumnSet + {IdCode} + EventPrefix(6) - {Frshtt} + {Year, Month, Day, Date} - {Yrmoda}
    + {MaxTempQualityFlag, MinTempQualityFlag, PrecipFlag}
  }

  const MetaColumns: set<Col> := {Elevation, StationName, CountryCode, Latitude, Longitude}

  /** The measurement and ID columns of a line survive the unpacking. */
  lemma UnpackedKeepsLoaded(c: Col)
    requires c in OpColumnSet && c != Frshtt && c != Yrmoda
    ensures c in UnpackedColumns()
  {
  }

  /** Every header column is present before `reorganize_columns`. */
  lemma StepColumns()
    ensures HeaderSet <= UnpackedColumns() + MetaColumns
  {
    EventPrefixAll();
    forall c | c in HeaderSet
      ensures c in UnpackedColumns() + MetaColumns
    {
      if c in OpColumnSet {
        UnpackedKeepsLoaded(c);
      }
    }
  }

  /** The steps composed give the clean row of every loaded row, once every
      row has the 38 header columns. */
  lemma StepsCompose(rs: seq<Row>, id: Cell, reg: seq<Station>)
    requires var s := ReorganizedRows(NullMissingRows(MetaRows(FlagsRows(DatesRows(EventsRows(WithIdRows(rs)))), id, reg)));
      forall i :: 0 <= i < |s| ==> s[i].Keys == HeaderSet
    ensures ReorganizedRows(NullMissingRows(MetaRows(FlagsRows(DatesRows(EventsRows(WithIdRows(rs)))), id, reg)))
         == CleanLoadedRows(rs, id, reg)
  {
    var s := ReorganizedRows(NullMissingRows(MetaRows(FlagsRows(DatesRows(EventsRows(WithIdRows(rs)))), id, reg)));
    forall i | 0 <= i < |rs|
      ensures s[i] == CleanLoadedRow(rs[i], id, reg)
    {
      assert s[i] == StepsRow(rs[i], id, reg);
      RowCompose(rs[i], id, reg);
    }
  }

  // ---------------------------------------------------------------------
  // The frame, changed in place

  class Frame {
    var columns: set<Col>
    var order: seq<Col>
    var rows: seq<Row>

    /** Every row has a cell in each column, and the column order lists the
      columns. */
    ghost predicate Valid()
      reads this
    {
      && (forall i :: 0 <= i < |rows| ==> rows[i].Keys == columns)
      && (forall c {:trigger c in order} :: c in order <==> c in columns)
    }

    /** `pd.DataFrame(data)` with its columns labelled `order`. */
    constructor (columns: set<Col>, order: seq<Col>, rows: seq<Row>)
      requires forall c :: c in order <==> c in columns
      requires forall i :: 0 <= i < |rows| ==> rows[i].Keys == columns
      ensures Valid() && this.columns == columns && this.order == order && this.rows == rows
    {
      this.columns := columns;
      this.order := order;
      this.rows := rows;
    }

    /** `df[dst] = df[src].apply(op)`: fails (KeyError or the lambda raising)
      without touching the frame, since pandas builds the whole column
      before assigning it. */
    method AssignColumn(dst: Col, src: Col, op: CellOp) returns (ok: bool)
      requires Valid()
      modifies this
      ensures Valid()
      ensures ok <==> src in old(columns) && Appliable(old(rows), src, op)
      ensures ok ==> columns == old(columns) + {dst} && rows == MappedColumn(old(rows), src, dst, op)
      ensures ok ==> order == WithColumn(old(order), dst)
      ensures !ok ==> columns == old(columns) && order == old(order) && rows == old(rows)
    {
      if src !in columns || !Appliable(rows, src, op) {
        return false;
      }
      rows := MappedColumn(rows, src, dst, op);
      columns := columns + {dst};
      WithColumnSpec(order, dst);
      order := WithColumn(order, dst);
      return true;
    }

    /** `del df[c]`. */
    method DropColumn(c: Col)
      requires Valid() && c in columns
      modifies this
      ensures Valid()
      ensures columns == old(columns) - {c}
      ensures order == WithoutColumn(old(order), c)
      ensures rows == DroppedRows(old(rows), c)
    {
      var rs := rows;
      rows := DroppedRows(rs, c);
      columns := columns - {c};
      WithoutColumnSpec(order, c);
      order := WithoutColumn(order, c);
    }

    /** The `ID_Code` column of `raw_op_to_clean_dataframe`. */
    method AddIdCode() returns (ok: bool)
      requires Valid()
      modifies this
      ensures Valid()
      ensures ok <==> UsafIdCode in old(columns) && WbanIdCode in old(columns)
      ensures ok ==> columns == old(columns) + {IdCode}
      ensures ok ==> order == WithColumn(old(order), IdCode)
      ensures ok ==> rows == WithIdRows(old(rows))
      ensures !ok ==> columns == old(columns) && order == old(order) && rows == old(rows)
    {
      if UsafIdCode !in columns || WbanIdCode !in columns {
        return false;
      }
      var rs := rows;
      rows := WithIdRows(rs);
      columns := columns + {IdCode};
      WithColumnSpec(order, IdCode);
      order := WithColumn(order, IdCode);
      return true;
    }

    /** `unpack_FRSHTT`: one column per event, column `i` being character `i`
      of the code, then FRSHTT deleted. It fails when FRSHTT is missing or
      some code is NaN or shorter than six characters; the frame is then
      abandoned by every caller. */
    method UnpackFrshtt() returns (ok: bool)
      requires Valid()
      modifies this
      ensures Valid()
      ensures ok <==> Frshtt in old(columns) && AllEventsReadable(old(rows))
      ensures ok ==> columns == old(columns) + EventPrefix(6) - {Frshtt}
      ensures ok ==> order == WithoutColumn(EventsOrder(old(order), 6), Frshtt)
      ensures ok ==> rows == EventsRows(old(rows))
    {
      var k := 0;
      while k < 6
        invariant 0 <= k <= 6 && Valid()
        invariant columns == old(columns) + EventPrefix(k)
        invariant order == EventsOrder(old(order), k)
        invariant rows == EventsRowsUpTo(old(rows), k)
        invariant k > 0 ==> Frshtt in old(columns) && CodesLongerThan(old(rows), k - 1)
      {
        EventsLoopStep(old(rows), k);
        ok := AssignColumn(EventColumns[k], Frshtt, EventAt(k));
        if !ok {
          return;
        }
        k := k + 1;
      }
      EventsDrop(old(rows));
      DropColumn(Frshtt);
      ok := true;
    }

    /** `unpack_date_info(df)`: Year, Month, Day and Date from `yrmoda`, then
      `yrmoda` deleted. Slicing never raises on a string, so it fails only
      on a missing column or a NaN date. */
    method UnpackDateInfo() returns (ok: bool)
      requires Valid()
      modifies this
      ensures Valid()
      ensures ok <==> Yrmoda in old(columns) && AllDated(old(rows))
      ensures ok ==> columns == old(columns) + {Year, Month, Day, Date} - {Yrmoda}
      ensures ok ==> order == DatesOrder(old(order))
      ensures ok ==> rows == DatesRows(old(rows))
    {
      ghost var rs := rows;
      DatesAssignments(rs);
      ok := AssignDateParts();
      if ok {
        DropColumn(Yrmoda);
      }
    }

    /** The four assignments of `unpack_date_info`, each reading `yrmoda`. */
    method AssignDateParts() returns (ok: bool)
      requires Valid()
      modifies this
      ensures Valid()
      ensures ok <==> Yrmoda in old(columns) && AllDated(old(rows))
      ensures ok ==> columns == old(columns) + {Year, Month, Day, Date} && Yrmoda in columns
      ensures ok ==> order == WithColumn(WithColumn(WithColumn(WithColumn(old(order), Year), Month), Day), Date)
      ensures ok ==> rows == MappedColumn(MappedColumn(MappedColumn(MappedColumn(old(rows),
        Yrmoda, Year, YearPart), Yrmoda, Month, MonthPart), Yrmoda, Day, DayPart), Yrmoda, Date, JoinedDate)
    {
      DatesAssignments(rows);
      ok := AssignColumn(Year, Yrmoda, YearPart);
      if ok {
        ok := AssignColumn(Month, Yrmoda, MonthPart);
        assert ok;
        ok := AssignColumn(Day, Yrmoda, DayPart);
        assert ok;
        ok := AssignColumn(Date, Yrmoda, JoinedDate);
        assert ok;
      }
    }

    /** `unpack_quality_flags`: for Max_Temp then Min_Temp, a 0/1 flag for a
      trailing '*' and the value with its '*'s stripped; then the last
      character of Precipitation split off into Precip_Flag. It fails when
      one of the three fields is missing, NaN or empty. */
    method UnpackQualityFlags() returns (ok: bool)
      requires Valid()
      modifies this
      ensures Valid()
      ensures ok <==> MaxTemp in old(columns) && MinTemp in old(columns) && Precipitation in old(columns)
                      && AllFlagsReadable(old(rows))
      ensures ok ==> columns == old(columns) + {MaxTempQualityFlag, MinTempQualityFlag, PrecipFlag}
      ensures ok ==> order == FlagsOrder(old(order))
      ensures ok ==> rows == FlagsRows(old(rows))
    {
      FlagsReadableFields(rows);
      PrecipStep(rows);
      ok := FlagTemperatures();
      if !ok {
        return;
      }
      ok := SplitPrecipitation();
    }

    /** The loop of `unpack_quality_flags` over Max_Temp and Min_Temp. */
    method FlagTemperatures() returns (ok: bool)
      requires Valid()
      modifies this
      ensures Valid()
      ensures ok <==> MaxTemp in old(columns) && MinTemp in old(columns)
                      && AllNonEmpty(old(rows), MaxTemp) && AllNonEmpty(old(rows), MinTemp)
      ensures ok ==> columns == old(columns) + {MaxTempQualityFlag, MinTempQualityFlag}
      ensures ok ==> order == TempFlagsOrder(old(order), 2)
      ensures ok ==> rows == TempFlagsRowsUpTo(old(rows), 2)
    {
      var k := 0;
      while k < 2
        invariant 0 <= k <= 2 && Valid()
        invariant columns == old(columns) + FlagPrefix(k)
        invariant order == TempFlagsOrder(old(order), k)
        invariant rows == TempFlagsRowsUpTo(old(rows), k)
        invariant k > 0 ==> MaxTemp in old(columns) && AllNonEmpty(old(rows), MaxTemp)
        invariant k > 1 ==> MinTemp in old(columns) && AllNonEmpty(old(rows), MinTemp)
      {
        var col := if k == 0 then MaxTemp else MinTemp;
        assert col == TempColumns[k];
        TempFlagsLoopStep(old(rows), k);
        ok := AssignColumn(FlagColumn(col), col, StarFlag);
        if !ok {
          return;
        }
        ok := AssignColumn(col, col, StripStars);
        if !ok {
          return;
        }
        k := k + 1;
      }
      ok := true;
    }

    /** The last character of Precipitation split off into Precip_Flag. */
    method SplitPrecipitation() returns (ok: bool)
      requires Valid()
      modifies this
      ensures Valid()
      ensures ok <==> Precipitation in old(columns) && AllNonEmpty(old(rows), Precipitation)
      ensures ok ==> columns == old(columns) + {PrecipFlag}
      ensures ok ==> order == WithColumn(WithColumn(old(order), PrecipFlag), Precipitation)
      ensures ok ==> rows == PrecipRows(old(rows))
    {
      PrecipAssignments(rows);
      ok := AssignColumn(PrecipFlag, Precipitation, LastChar);
      if !ok {
        return;
      }
      ok := AssignColumn(Precipitation, Precipitation, AllButLast);
    }

    /** The five registry columns of `raw_op_to_clean_dataframe`, every row
      taking the values of the station `id`. */
    method AddMetadata(id: Cell, reg: seq<Station>)
      requires Valid()
      modifies this
      ensures Valid()
      ensures columns == old(columns) + MetaColumns
      ensures order == WithColumns(old(order), MetaOrder)
      ensures rows == MetaRows(old(rows), id, reg)
    {
      var rs := rows;
      rows := MetaRows(rs, id, reg);
      columns := columns + MetaColumns;
      WithColumnsSpec(order, MetaOrder);
      order := WithColumns(order, MetaOrder);
    }

    /** `missing_codes_to_nan`. */
    method MissingCodesToNan()
      requires Valid()
      modifies this
      ensures Valid()
      ensures columns == old(columns) && order == old(order)
      ensures rows == NullMissingRows(old(rows))
    {
      var rs := rows;
      rows := NullMissingRows(rs);
    }

    /** `reorganize_columns`: KeyError unless every header column is present. */
    method ReorganizeColumns() returns (ok: bool)
      requires Valid()
      modifies this
      ensures Valid()
      ensures ok <==> HeaderSet <= old(columns)
      ensures ok ==> columns == HeaderSet && order == HeaderOrder
      ensures ok ==> rows == ReorganizedRows(old(rows))
      ensures !ok ==> columns == old(columns) && order == old(order) && rows == old(rows)
    {
      if !(HeaderSet <= columns) {
        return false;
      }
      var rs := rows;
      rows := ReorganizedRows(rs);
      columns := HeaderSet;
      order := HeaderOrder;
      return true;
    }

    /** The steps of `raw_op_to_clean_dataframe` after loading, in the
      source's order. They fail (IndexError, TypeError) unless there is a
      row and every row is transformable. */
    method CleanLoaded(reg: seq<Station>) returns (ok: bool)
      requires Valid() && columns == OpColumnSet
      modifies this
      ensures Valid()
      ensures ok <==> |old(rows)| > 0 && AllEventsReadable(old(rows)) && AllDated(old(rows)) && AllFlagsReadable(old(rows))
      ensures ok ==> columns == HeaderSet && order == HeaderOrder
      ensures ok ==> rows == CleanLoadedRows(old(rows), StationOf(old(rows)), reg)
    {
      ghost var r0 := rows;
      ok := UnpackLoaded();
      if !ok || |rows| == 0 {
        return false;
      }
      IdKept(r0[0]);
      var id := Get(rows[0], IdCode);
      JoinAndTidy(id, reg);
      StepsCompose(r0, id, reg);
    }

    /** The metadata join, `missing_codes_to_nan` and `reorganize_columns` on
      an unpacked frame; none of them can fail there. */
    method JoinAndTidy(id: Cell, reg: seq<Station>)
      requires Valid() && columns == UnpackedColumns()
      modifies this
      ensures Valid() && columns == HeaderSet && order == HeaderOrder
      ensures rows == ReorganizedRows(NullMissingRows(MetaRows(old(rows), id, reg)))
    {
      AddMetadata(id, reg);
      MissingCodesToNan();
      StepColumns();
      var ok := ReorganizeColumns();
      assert ok;
    }

    /** The ID column and the three unpacking steps. */
    method UnpackLoaded() returns (ok: bool)
      requires Valid() && columns == OpColumnSet
      modifies this
      ensures Valid()
      ensures ok <==> AllEventsReadable(old(rows)) && AllDated(old(rows)) && AllFlagsReadable(old(rows))
      ensures ok ==> columns == UnpackedColumns()
      ensures ok ==> order == UnpackedOrder(old(order))
      ensures ok ==> rows == FlagsRows(DatesRows(EventsRows(WithIdRows(old(rows)))))
    {
      StepsOutcome(rows);
      ok := AddIdCode();
      assert ok;
      ok := UnpackFrshtt();
      if !ok {
        return;
      }
      ok := UnpackDateInfo();
      if !ok {
        return;
      }
      ok := UnpackQualityFlags();
    }
  }

  // ---------------------------------------------------------------------
  // The whole transformer

  /** A data line the transformer turns into a row: 22 tokens, a FRSHTT code
      of at least six characters, and non-empty Max_Temp, Min_Temp and
      Precipitation fields. */
  predicate Readable(t: seq<string>) {
    |t| == |OpColumns| && |t[21]| >= 6 && |t[17]| > 0 && |t[18]| > 0 && |t[19]| > 0
  }

  /** A file `raw_op_to_clean_dataframe` converts without raising: at least
      one data line, and every data line readable. */
  predicate Cleanable(lines: seq<seq<string>>) {
    var data := DataLines(lines);
    |data| > 0 && forall i :: 0 <= i < |data| ==> Readable(data[i])
  }

  /** A loaded row every step can transform: a FRSHTT code of at least six
      characters, a date, and non-empty Max_Temp, Min_Temp and Precipitation. */
  predicate Transformable(r: Row) {
    EventsReadable(r) && Get(r, Yrmoda).Text? && FlagsReadable(r)
  }

  /** The station of a frame: the ID of its first row. */
  function StationOf(rs: seq<Row>): Cell {
    if |rs| == 0 then Null else Joined(Get(rs[0], UsafIdCode), Get(rs[0], WbanIdCode))
  }

  /** The clean row of a loaded row for station `id`, column by column: the
      38 header columns, each holding its `CleanField`. */
  function CleanLoadedRow(r: Row, id: Cell, reg: seq<Station>): (c: Row)
    ensures c.Keys == HeaderSet
  {
    map c | c in HeaderSet :: CleanField(r, id, reg, c)
  }

  function CleanLoadedRows(rs: seq<Row>, id: Cell, reg: seq<Station>): (r: seq<Row>)
    ensures |r| == |rs| && forall i :: 0 <= i < |rs| ==> r[i] == CleanLoadedRow(rs[i], id, reg)
  {
    seq(|rs|, i requires 0 <= i < |rs| => CleanLoadedRow(rs[i], id, reg))
  }

  /** The canonical row of data line `t` for station `id`. */
  function CleanRow(t: seq<string>, id: Cell, reg: seq<Station>): Row {
    CleanLoadedRow(LoadRow(t), id, reg)
  }

  /** The station of a file: the ID of its first data line. */
  function FileStation(lines: seq<seq<string>>): Cell {
    var data := DataLines(lines);
    if |data| == 0 then Null else Joined(Token(data[0], 0), Token(data[0], 1))
  }

  /** What `raw_op_to_clean_dataframe` returns for a cleanable file. */
  function CleanRows(lines: seq<seq<string>>, reg: seq<Station>): (r: seq<Row>)
    ensures |r| == |DataLines(lines)|
    ensures forall i :: 0 <= i < |r| ==> r[i] == CleanRow(DataLines(lines)[i], FileStation(lines), reg)
  {
    CleanLoadedRows(LoadRows(DataLines(lines)), FileStation(lines), reg)
  }

  /** Which step of `raw_op_to_clean_dataframe` writes or deletes a column;
      the measurements are written by none, nor are the ID columns (the
      first two are loaded, `ID_Code` is added first) or the inventory's. */
  datatype Writer = EventsStep | DatesStep | FlagsStep | MetaStep | NoStep

  function WriterOf(c: Col): Writer {
    match c
    case Fog | RainOrDrizzle | SnowOrIce | Hail | Thunder | Tornado | Frshtt => EventsStep
    case Year | Month | Day | Date | Yrmoda => DatesStep
    case MaxTemp | MinTemp | Precipitation | MaxTempQualityFlag | MinTempQualityFlag | PrecipFlag => FlagsStep
    case Elevation | StationName | CountryCode | Latitude | Longitude => MetaStep
    case _ => NoStep
  }

  /** The columns each step writes or deletes. */
  predicate EventsWritten(c: Col) {
    WriterOf(c) == EventsStep
  }

  predicate DatesWritten(c: Col) {
    WriterOf(c) == DatesStep
  }

  predicate FlagsWritten(c: Col) {
    WriterOf(c) == FlagsStep
  }

  predicate MetaWritten(c: Col) {
    WriterOf(c) == MetaStep
  }

  /** The columns of each group, written out. */
  lemma EventsCases(c: Col)
    ensures EventsWritten(c) <==> c == Fog || c == RainOrDrizzle || c == SnowOrIce || c == Hail || c == Thunder || c == Tornado || c == Frshtt
  {
  }

  lemma DatesCases(c: Col)
    ensures DatesWritten(c) <==> c == Year || c == Month || c == Day || c == Date || c == Yrmoda
  {
  }

  lemma FlagsCases(c: Col)
    ensures FlagsWritten(c) <==> c == MaxTemp || c == MinTemp || c == Precipitation || c == MaxTempQualityFlag || c == MinTempQualityFlag || c == PrecipFlag
  {
  }

  lemma MetaCases(c: Col)
    ensures MetaWritten(c) <==> c == Elevation || c == StationName || c == CountryCode || c == Latitude || c == Longitude
  {
  }

  lemma WriterCases(c: Col)
    ensures EventsWritten(c) <==> c == Fog || c == RainOrDrizzle || c == SnowOrIce || c == Hail || c == Thunder || c == Tornado || c == Frshtt
    ensures DatesWritten(c) <==> c == Year || c == Month || c == Day || c == Date || c == Yrmoda
    ensures FlagsWritten(c) <==> c == MaxTemp || c == MinTemp || c == Precipitation || c == MaxTempQualityFlag || c == MinTempQualityFlag || c == PrecipFlag
    ensures MetaWritten(c) <==> c == Elevation || c == StationName || c == CountryCode || c == Latitude || c == Longitude
  {
    EventsCases(c);
    DatesCases(c);
    FlagsCases(c);
    MetaCases(c);
  }

  /** Each step leaves the columns it does not write as they were. */
  lemma EventsKeep(r: Row, c: Col)
    requires c != Fog && c != RainOrDrizzle && c != SnowOrIce && c != Hail && c != Thunder && c != Tornado && c != Frshtt
    ensures Get(EventsRow(r), c) == Get(r, c)
  {
  }

  lemma DatesKeep(r: Row, c: Col)
    requires c != Year && c != Month && c != Day && c != Date && c != Yrmoda
    ensures Get(DatesRow(r), c) == Get(r, c)
  {
  }

  lemma MetaKeep(r: Row, id: Cell, reg: seq<Station>, c: Col)
    requires c != Elevation && c != StationName && c != CountryCode && c != Latitude && c != Longitude
    ensures Get(MetaRow(r, id, reg), c) == Get(r, c)
  {
  }

  lemma FlagsKeep(r: Row, c: Col)
    requires c != MaxTemp && c != MinTemp && c != Precipitation && c != MaxTempQualityFlag && c != MinTempQualityFlag && c != PrecipFlag
    ensures Get(FlagsRow(r), c) == Get(r, c)
  {
  }

  /** A loaded column holds the token at its position. */
  lemma LoadedCell(t: seq<string>, c: Col)
    requires Position(c) < 22
    ensures Get(WithId(LoadRow(t)), c) == Token(t, Position(c))
  {
  }

  lemma LoadedFrshtt(t: seq<string>)
    ensures EventsReadable(WithId(LoadRow(t))) <==> |t| >= 22 && |t[21]| >= 6
  {
    assert Get(WithId(LoadRow(t)), Frshtt) == Token(t, 21);
  }

  /** The station ID survives the steps before the metadata join. */
  lemma IdKept(r: Row)
    ensures Get(FlagsRow(DatesRow(EventsRow(WithId(r)))), IdCode) == Joined(Get(r, UsafIdCode), Get(r, WbanIdCode))
  {
    var w := WithId(r);
    var e := EventsRow(w);
    var d := DatesRow(e);
    EventsKeep(w, IdCode);
    DatesKeep(e, IdCode);
    FlagsKeep(d, IdCode);
  }

  /** The FRSHTT and date steps leave the fields the flag step reads. */
  lemma EarlyStepsKeep(r: Row)
    ensures Get(EventsRow(r), Yrmoda) == Get(r, Yrmoda)
    ensures FlagsReadable(DatesRow(EventsRow(r))) <==> FlagsReadable(r)
  {
    EventsKeep(r, Yrmoda);
    EventsKeepFlags(r);
    DatesKeepFlags(EventsRow(r));
  }

  lemma EventsKeepFlags(r: Row)
    ensures FlagsReadable(EventsRow(r)) <==> FlagsReadable(r)
  {
    EventsKeep(r, MaxTemp);
    EventsKeep(r, MinTemp);
    EventsKeep(r, Precipitation);
  }

  lemma DatesKeepFlags(r: Row)
    ensures FlagsReadable(DatesRow(r)) <==> FlagsReadable(r)
  {
    DatesKeep(r, MaxTemp);
    DatesKeep(r, MinTemp);
    DatesKeep(r, Precipitation);
  }

  /** The cells of a loaded line that the first steps read. */
  lemma LoadedCells(t: seq<string>)
    ensures Get(WithId(LoadRow(t)), Yrmoda) == Token(t, 2)
    ensures FlagsReadable(WithId(LoadRow(t))) <==> |t| > 19 && |t[17]| > 0 && |t[18]| > 0 && |t[19]| > 0
  {
    LoadedCell(t, Yrmoda);
    LoadedCell(t, MaxTemp);
    LoadedCell(t, MinTemp);
    LoadedCell(t, Precipitation);
  }

  /** The loading step succeeds exactly when the data lines are at most 22
      tokens wide with one of them exactly 22 wide; a cleanable file loads. */
  lemma LoadOpOutcome(lines: seq<seq<string>>)
    ensures Cleanable(lines) ==> LoadOp(lines).Ok?
    ensures LoadOp(lines).Ok? ==> |DataLines(lines)| > 0
    ensures LoadOp(lines).Ok? ==> forall i :: 0 <= i < |DataLines(lines)| ==> |DataLines(lines)[i]| <= 22
  {
    var data := DataLines(lines);
    if Cleanable(lines) {
      var w := MaxWidth(data);
      assert exists i :: 0 <= i < |data| && |data[i]| == w;
    }
  }

  /** A loaded line is transformable exactly when it is readable. */
  lemma LoadedTransformable(t: seq<string>)
    requires |t| <= 22
    ensures Transformable(LoadRow(t)) <==> Readable(t)
  {
    LoadedFrshtt(t);
    LoadedCells(t);
    assert Get(LoadRow(t), Yrmoda) == Get(WithId(LoadRow(t)), Yrmoda);
    assert FlagsReadable(LoadRow(t)) <==> FlagsReadable(WithId(LoadRow(t)));
  }

  /** On a loaded file, the steps after loading succeed exactly when the file
      is cleanable. */
  lemma LoadedOutcome(lines: seq<seq<string>>)
    requires LoadOp(lines).Ok?
    ensures var lr := LoadOp(lines).value;
      (|lr| > 0 && AllEventsReadable(lr) && AllDated(lr) && AllFlagsReadable(lr)) <==> Cleanable(lines)
  {
    LoadOpOutcome(lines);
    var data := DataLines(lines);
    var lr := LoadOp(lines).value;
    forall i | 0 <= i < |data|
      ensures Transformable(lr[i]) <==> Readable(data[i])
    {
      LoadedTransformable(data[i]);
    }
  }

  /** A loaded file joins the station of its first line and gives its clean
      rows. */
  lemma LoadedRows(lines: seq<seq<string>>, reg: seq<Station>)
    requires LoadOp(lines).Ok?
    ensures var lr := LoadOp(lines).value;
      && StationOf(lr) == FileStation(lines)
      && CleanLoadedRows(lr, StationOf(lr), reg) == CleanRows(lines, reg)
  {
    var data := DataLines(lines);
    if |data| > 0 {
      LoadedCell(data[0], UsafIdCode);
      LoadedCell(data[0], WbanIdCode);
    }
  }

  /** `raw_op_to_clean_dataframe`: the frame is loaded and transformed in
      place; it succeeds exactly on a cleanable file, and the result is the
      clean row of every data line, joined with the registry fields of the
      station of the first line. */
  method RawOpToCleanFrame(lines: seq<seq<string>>, reg: seq<Station>) returns (r: Result<Frame>)
    ensures r.Ok? <==> Cleanable(lines)
    ensures r.Ok? ==> fresh(r.value) && r.value.Valid() && r.value.columns == HeaderSet && r.value.order == HeaderOrder
    ensures r.Ok? ==> forall c :: c in r.value.order <==> c in r.value.columns
    ensures r.Ok? ==> r.value.rows == CleanRows(lines, reg)
  {
    LoadOpOutcome(lines);
    var loaded := LoadOp(lines);
    if loaded.Err? {
      return Err(loaded.error);
    }
    var data := DataLines(lines);
    var lr := loaded.value;
    forall i | 0 <= i < |lr|
      ensures lr[i].Keys == OpColumnSet
    {
      LoadRowKeys(data[i]);
    }
    LoadedOutcome(lines);
    LoadedRows(lines, reg);
    OpColumnsLabels();
    var df := new Frame(OpColumnSet, OpColumns, lr);
    var ok := df.CleanLoaded(reg);
    if !ok {
      return Err(BadCell("unpack_FRSHTT or unpack_quality_flags"));
    }
    HeaderOrderColumns();
    return Ok(df);
  }

  // ---------------------------------------------------------------------
  // The clean row, column by column

  /** A loaded row after the ID column and the three unpacking steps. */
  function Unpacked(r: Row): Row {
    FlagsRow(DatesRow(EventsRow(WithId(r))))
  }

  /** A loaded row after every step of `raw_op_to_clean_dataframe`, joined
      with the registry fields of station `id`. */
  function StepsRow(r: Row, id: Cell, reg: seq<Station>): Row {
    Reorganized(NullMissing(MetaRow(Unpacked(r), id, reg)))
  }

  /** The position in FRSHTT of the event an event column holds. */
  function EventIndex(c: Col): (j: nat)
    ensures j < |EventColumns|
  {
    if c == Fog then 0 else if c == RainOrDrizzle then 1 else if c == SnowOrIce then 2
    else if c == Hail then 3 else if c == Thunder then 4 else 5
  }

  /** The lambda of `unpack_date_info` that fills date column `c`. */
  function DateOp(c: Col): CellOp {
    if c == Year then YearPart else if c == Month then MonthPart else if c == Day then DayPart else JoinedDate
  }

  /** The field a column of `unpack_quality_flags` is computed from, and the
      lambda that computes it. */
  function FlagSource(c: Col): Col {
    if c == MaxTempQualityFlag || c == MaxTemp then MaxTemp
    else if c == MinTempQualityFlag || c == MinTemp then MinTemp
    else Precipitation
  }

  function FlagOp(c: Col): CellOp {
    if c == MaxTempQualityFlag || c == MinTempQualityFlag then StarFlag
    else if c == MaxTemp || c == MinTemp then StripStars
    else if c == PrecipFlag then LastChar
    else AllButLast
  }

  /** The registry field a registry column holds. */
  function MetaFieldOf(c: Col): MetaField {
    if c == Elevation then ElevField else if c == StationName then NameField
    else if c == CountryCode then CtryField else if c == Latitude then LatField else LonField
  }

  /** What column `c` of the clean row holds, read off the loaded row `r`:
      the two ID fields as loaded and `ID_Code` joining them; every other
      column the value its lambda computes from the field it reads (or the
      registry field, or the field itself for a measurement), NaN when that
      is a string holding a missing-value code. */
  function CleanField(r: Row, id: Cell, reg: seq<Station>, c: Col): Cell {
    if c == UsafIdCode || c == WbanIdCode then Get(r, c)
    else if c == IdCode then Joined(Get(r, UsafIdCode), Get(r, WbanIdCode))
    else NullIfMissing(
      if EventsWritten(c) then Applied(EventAt(EventIndex(c)), Get(r, Frshtt))
      else if DatesWritten(c) then Applied(DateOp(c), Get(r, Yrmoda))
      else if FlagsWritten(c) then Applied(FlagOp(c), Get(r, FlagSource(c)))
      else if MetaWritten(c) then MetaCell(id, reg, MetaFieldOf(c))
      else Get(r, c))
  }

  /** The fifteen measurement columns: the fields of the layout after
      `yrmoda` and before `FRSHTT` that no step writes. */
  predicate Measurement(c: Col) {
    3 <= Position(c) <= 20 && WriterOf(c) == NoStep
  }

  // The groups of header columns, and the value `CleanField` gives in each.

  /** Every header column is an ID column, a column one step writes, or a
      measurement. */
  lemma HeaderGroups(c: Col)
    requires c in HeaderSet
    ensures || c in IdColumns || (EventsWritten(c) && c != Frshtt) || (DatesWritten(c) && c != Yrmoda)
            || FlagsWritten(c) || (MetaWritten(c) && c != StationName) || Measurement(c)
  {
    HeaderNotDeleted(c);
    if c !in IdColumns && WriterOf(c) == NoStep {
      HeaderMeasurement(c);
    }
  }

  lemma HeaderNotDeleted(c: Col)
    requires c in HeaderSet
    ensures c != Frshtt && c != Yrmoda && c != StationName
  {
  }

  lemma HeaderMeasurement(c: Col)
    requires c in HeaderSet && c !in IdColumns && WriterOf(c) == NoStep
    ensures 3 <= Position(c) <= 20
  {
  }

  lemma IdGroup(r: Row, id: Cell, reg: seq<Station>, c: Col)
    requires c in IdColumns
    ensures c in HeaderSet && !MetaWritten(c)
    ensures c == IdCode ==> CleanField(r, id, reg, c) == Joined(Get(r, UsafIdCode), Get(r, WbanIdCode))
    ensures c != IdCode ==> !EventsWritten(c) && !DatesWritten(c) && !FlagsWritten(c)
    ensures c != IdCode ==> CleanField(r, id, reg, c) == Get(r, c)
  {
    if c == UsafIdCode {
      assert UsafIdCode in HeaderSet;
    } else if c == WbanIdCode {
      assert WbanIdCode in HeaderSet;
    } else {
      assert IdCode in HeaderSet;
    }
  }

  lemma EventGroup(r: Row, id: Cell, reg: seq<Station>, c: Col)
    requires EventsWritten(c) && c != Frshtt
    ensures c in HeaderSet && c !in IdColumns && c != IdCode
    ensures !DatesWritten(c) && !FlagsWritten(c) && !MetaWritten(c)
    ensures CleanField(r, id, reg, c) == NullIfMissing(Applied(EventAt(EventIndex(c)), Get(r, Frshtt)))
  {
    WriterCases(c);
  }

  lemma DateGroup(r: Row, id: Cell, reg: seq<Station>, c: Col)
    requires DatesWritten(c) && c != Yrmoda
    ensures c in HeaderSet && c !in IdColumns && c != IdCode
    ensures !EventsWritten(c) && !FlagsWritten(c) && !MetaWritten(c)
    ensures CleanField(r, id, reg, c) == NullIfMissing(Applied(DateOp(c), Get(r, Yrmoda)))
  {
    WriterCases(c);
  }

  lemma FlagGroup(r: Row, id: Cell, reg: seq<Station>, c: Col)
    requires FlagsWritten(c)
    ensures c in HeaderSet && c !in IdColumns && c != IdCode
    ensures !EventsWritten(c) && !DatesWritten(c) && !MetaWritten(c)
    ensures FlagSource(c) == MaxTemp || FlagSource(c) == MinTemp || FlagSource(c) == Precipitation
    ensures CleanField(r, id, reg, c) == NullIfMissing(Applied(FlagOp(c), Get(r, FlagSource(c))))
  {
    WriterCases(c);
  }

  lemma MetaGroup(r: Row, id: Cell, reg: seq<Station>, c: Col)
    requires MetaWritten(c) && c != StationName
    ensures c in HeaderSet && c !in IdColumns && c != IdCode
    ensures CleanField(r, id, reg, c) == NullIfMissing(MetaCell(id, reg, MetaFieldOf(c)))
  {
    WriterCases(c);
  }

  lemma MeasurementGroup(r: Row, id: Cell, reg: seq<Station>, c: Col)
    requires Measurement(c)
    ensures c in HeaderSet && c !in IdColumns && c != IdCode
    ensures !EventsWritten(c) && !DatesWritten(c) && !FlagsWritten(c) && !MetaWritten(c)
    ensures CleanField(r, id, reg, c) == NullIfMissing(Get(r, c))
  {
    MeasurementInHeader(c);
  }

  lemma MeasurementInHeader(c: Col)
    requires Measurement(c)
    ensures c in HeaderSet && c !in IdColumns
  {
  }

  // Each step on one cell.

  lemma WithIdKeep(r: Row, c: Col)
    requires c != IdCode
    ensures Get(WithId(r), c) == Get(r, c)
  {
  }

  /** `unpack_FRSHTT` writes into each event column the lambda's value on
      the code. */
  lemma EventsCell(w: Row, c: Col)
    requires EventsWritten(c) && c != Frshtt
    ensures Get(EventsRow(w), c) == Applied(EventAt(EventIndex(c)), Get(w, Frshtt))
  {
    EventsCases(c);
    if c == Fog {
      assert EventIndex(c) == 0;
    } else if c == RainOrDrizzle {
      assert EventIndex(c) == 1;
    } else if c == SnowOrIce {
      assert EventIndex(c) == 2;
    } else if c == Hail {
      assert EventIndex(c) == 3;
    } else if c == Thunder {
      assert EventIndex(c) == 4;
    } else {
      assert c == Tornado && EventIndex(c) == 5;
    }
  }

  /** `unpack_date_info` writes into each date column the lambda's value on
      `yrmoda`. */
  lemma DatesCell(e: Row, c: Col)
    requires DatesWritten(c) && c != Yrmoda
    ensures Get(DatesRow(e), c) == Applied(DateOp(c), Get(e, Yrmoda))
  {
    DatesCases(c);
    if c == Year {
    } else if c == Month {
    } else if c == Day {
    }
  }

  /** `unpack_quality_flags` writes into each of its columns the lambda's
      value on the field it reads. */
  lemma FlagsCell(d: Row, c: Col)
    requires FlagsWritten(c)
    ensures Get(FlagsRow(d), c) == Applied(FlagOp(c), Get(d, FlagSource(c)))
  {
    FlagsCases(c);
    if c == MaxTempQualityFlag {
    } else if c == MaxTemp {
    } else if c == MinTempQualityFlag {
    } else if c == MinTemp {
    } else if c == PrecipFlag {
    }
  }

  /** The metadata join writes the station's field into each registry column. */
  lemma MetaRowCell(u: Row, id: Cell, reg: seq<Station>, c: Col)
    requires MetaWritten(c)
    ensures Get(MetaRow(u, id, reg), c) == MetaCell(id, reg, MetaFieldOf(c))
  {
  }

  /** The fields the later steps read are as loaded when they read them. */
  lemma SourcesKept(r: Row)
    ensures var w := WithId(r);
      && Get(EventsRow(w), Yrmoda) == Get(r, Yrmoda) && Get(w, Frshtt) == Get(r, Frshtt)
      && Get(DatesRow(EventsRow(w)), MaxTemp) == Get(r, MaxTemp)
      && Get(DatesRow(EventsRow(w)), MinTemp) == Get(r, MinTemp)
      && Get(DatesRow(EventsRow(w)), Precipitation) == Get(r, Precipitation)
  {
    var w := WithId(r);
    var e := EventsRow(w);
    WithIdKeep(r, Frshtt);
    WithIdKeep(r, Yrmoda);
    WithIdKeep(r, MaxTemp);
    WithIdKeep(r, MinTemp);
    WithIdKeep(r, Precipitation);
    EventsKeep(w, Yrmoda);
    EventsKeep(w, MaxTemp);
    EventsKeep(w, MinTemp);
    EventsKeep(w, Precipitation);
    DatesKeep(e, MaxTemp);
    DatesKeep(e, MinTemp);
    DatesKeep(e, Precipitation);
  }

  lemma UnpackedIs(r: Row)
    ensures Unpacked(r) == FlagsRow(DatesRow(EventsRow(WithId(r))))
  {
  }

  /** `missing_codes_to_nan` and `reorganize_columns` on one header cell. */
  lemma TidyCell(u: Row, id: Cell, reg: seq<Station>, c: Col)
    requires c in HeaderSet
    ensures var m := MetaRow(u, id, reg);
      Get(Reorganized(NullMissing(m)), c) == if c in IdColumns then Get(m, c) else NullIfMissing(Get(m, c))
  {
  }

  lemma StepsRowIs(r: Row, id: Cell, reg: seq<Station>)
    ensures StepsRow(r, id, reg) == Reorganized(NullMissing(MetaRow(Unpacked(r), id, reg)))
  {
  }

  // Each group through the steps.

  /** A column no step writes keeps its loaded cell up to the nulling. */
  lemma UntouchedKept(r: Row, id: Cell, reg: seq<Station>, c: Col)
    requires c != IdCode && !EventsWritten(c) && !DatesWritten(c) && !FlagsWritten(c) && !MetaWritten(c)
    ensures Get(MetaRow(Unpacked(r), id, reg), c) == Get(r, c)
  {
    WriterCases(c);
    var w := WithId(r);
    var e := EventsRow(w);
    var d := DatesRow(e);
    var u := FlagsRow(d);
    UnpackedIs(r);
    WithIdKeep(r, c);
    EventsKeep(w, c);
    DatesKeep(e, c);
    FlagsKeep(d, c);
    MetaKeep(u, id, reg, c);
  }

  /** Through the steps after `unpack_FRSHTT`, an event column keeps the
      lambda's value on the loaded code. */
  lemma EventKept(r: Row, id: Cell, reg: seq<Station>, c: Col)
    requires EventsWritten(c) && c != Frshtt
    ensures Get(MetaRow(Unpacked(r), id, reg), c) == Applied(EventAt(EventIndex(c)), Get(r, Frshtt))
  {
    WriterCases(c);
    var w := WithId(r);
    var e := EventsRow(w);
    var d := DatesRow(e);
    var u := FlagsRow(d);
    EventGroup(r, id, reg, c);
    UnpackedIs(r);
    SourcesKept(r);
    EventsCell(w, c);
    DatesKeep(e, c);
    FlagsKeep(d, c);
    MetaKeep(u, id, reg, c);
  }

  /** Through the steps after `unpack_date_info`, a date column keeps the
      lambda's value on the loaded `yrmoda`. */
  lemma DateKept(r: Row, id: Cell, reg: seq<Station>, c: Col)
    requires DatesWritten(c) && c != Yrmoda
    ensures Get(MetaRow(Unpacked(r), id, reg), c) == Applied(DateOp(c), Get(r, Yrmoda))
  {
    WriterCases(c);
    var w := WithId(r);
    var e := EventsRow(w);
    var d := DatesRow(e);
    var u := FlagsRow(d);
    DateGroup(r, id, reg, c);
    UnpackedIs(r);
    SourcesKept(r);
    DatesCell(e, c);
    FlagsKeep(d, c);
    MetaKeep(u, id, reg, c);
  }

  /** Through the metadata join, each flag and each flagged field keeps the
      lambda's value on the loaded field. */
  lemma FlagKept(r: Row, id: Cell, reg: seq<Station>, c: Col)
    requires FlagsWritten(c)
    ensures Get(MetaRow(Unpacked(r), id, reg), c) == Applied(FlagOp(c), Get(r, FlagSource(c)))
  {
    WriterCases(c);
    var w := WithId(r);
    var e := EventsRow(w);
    var d := DatesRow(e);
    var u := FlagsRow(d);
    FlagGroup(r, id, reg, c);
    UnpackedIs(r);
    SourcesKept(r);
    FlagsCell(d, c);
    MetaKeep(u, id, reg, c);
  }

  /** The steps give each group of header columns its `CleanField`. */
  lemma EventField(r: Row, id: Cell, reg: seq<Station>, c: Col)
    requires EventsWritten(c) && c != Frshtt
    ensures Get(StepsRow(r, id, reg), c) == CleanField(r, id, reg, c)
  {
    EventGroup(r, id, reg, c);
    StepsRowIs(r, id, reg);
    TidyCell(Unpacked(r), id, reg, c);
    EventKept(r, id, reg, c);
  }

  lemma DateField(r: Row, id: Cell, reg: seq<Station>, c: Col)
    requires DatesWritten(c) && c != Yrmoda
    ensures Get(StepsRow(r, id, reg), c) == CleanField(r, id, reg, c)
  {
    DateGroup(r, id, reg, c);
    StepsRowIs(r, id, reg);
    TidyCell(Unpacked(r), id, reg, c);
    DateKept(r, id, reg, c);
  }

  lemma FlagField(r: Row, id: Cell, reg: seq<Station>, c: Col)
    requires FlagsWritten(c)
    ensures Get(StepsRow(r, id, reg), c) == CleanField(r, id, reg, c)
  {
    FlagGroup(r, id, reg, c);
    StepsRowIs(r, id, reg);
    TidyCell(Unpacked(r), id, reg, c);
    FlagKept(r, id, reg, c);
  }

  lemma MetaColumnField(r: Row, id: Cell, reg: seq<Station>, c: Col)
    requires MetaWritten(c) && c != StationName
    ensures Get(StepsRow(r, id, reg), c) == CleanField(r, id, reg, c)
  {
    MetaGroup(r, id, reg, c);
    StepsRowIs(r, id, reg);
    TidyCell(Unpacked(r), id, reg, c);
    MetaRowCell(Unpacked(r), id, reg, c);
  }

  lemma MeasurementField(r: Row, id: Cell, reg: seq<Station>, c: Col)
    requires Measurement(c)
    ensures Get(StepsRow(r, id, reg), c) == CleanField(r, id, reg, c)
  {
    MeasurementGroup(r, id, reg, c);
    StepsRowIs(r, id, reg);
    TidyCell(Unpacked(r), id, reg, c);
    UntouchedKept(r, id, reg, c);
  }

  lemma IdField(r: Row, id: Cell, reg: seq<Station>, c: Col)
    requires c in IdColumns
    ensures Get(StepsRow(r, id, reg), c) == CleanField(r, id, reg, c)
  {
    IdGroup(r, id, reg, c);
    StepsRowIs(r, id, reg);
    TidyCell(Unpacked(r), id, reg, c);
    if c == IdCode {
      IdKept(r);
      UnpackedIs(r);
      MetaKeep(Unpacked(r), id, reg, c);
    } else {
      UntouchedKept(r, id, reg, c);
    }
  }

  /** Each header column of the steps' row is its `CleanField`. */
  lemma FieldCompose(r: Row, id: Cell, reg: seq<Station>, c: Col)
    requires c in HeaderSet
    ensures Get(StepsRow(r, id, reg), c) == CleanField(r, id, reg, c)
  {
    HeaderGroups(c);
    if c in IdColumns {
      IdField(r, id, reg, c);
    } else if EventsWritten(c) && c != Frshtt {
      EventField(r, id, reg, c);
    } else if DatesWritten(c) && c != Yrmoda {
      DateField(r, id, reg, c);
    } else if FlagsWritten(c) {
      FlagField(r, id, reg, c);
    } else if MetaWritten(c) && c != StationName {
      MetaColumnField(r, id, reg, c);
    } else {
      MeasurementField(r, id, reg, c);
    }
  }

  /** The steps of `raw_op_to_clean_dataframe` compute the clean row, column
      by column, of every loaded row they leave with the 38 header columns. */
  lemma RowCompose(r: Row, id: Cell, reg: seq<Station>)
    requires StepsRow(r, id, reg).Keys == HeaderSet
    ensures StepsRow(r, id, reg) == CleanLoadedRow(r, id, reg)
  {
    var s, c := StepsRow(r, id, reg), CleanLoadedRow(r, id, reg);
    forall k | k in HeaderSet
      ensures s[k] == c[k]
    {
      FieldCompose(r, id, reg, k);
      CleanLoadedCell(r, id, reg, k);
      GetPresent(s, k);
    }
    RowsEqual(s, c);
  }

  lemma CleanLoadedCell(r: Row, id: Cell, reg: seq<Station>, c: Col)
    requires c in HeaderSet
    ensures CleanLoadedRow(r, id, reg)[c] == CleanField(r, id, reg, c)
  {
  }

  lemma GetPresent(m: Row, c: Col)
    requires c in m
    ensures m[c] == Get(m, c)
  {
  }

  /** Two rows with the same columns and the same cells are equal. */
  lemma RowsEqual(a: Row, b: Row)
    requires a.Keys == b.Keys && forall k | k in a :: a[k] == b[k]
    ensures a == b
  {
  }
}
