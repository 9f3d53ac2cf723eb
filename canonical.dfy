/** The canonical row of one `.op` data line, field by field: what
    `raw_op_to_clean_dataframe` (clean_and_export_op_file.py) puts in each
    of the 38 columns it returns, stated on the tokens of the line. */
module Canonical {
  import opened Common
  import opened Records
  import opened Stations
  import opened Frames

  /** A header column of the clean row of a line is its `CleanField`; any
      other column is absent. */
  lemma CleanRowCell(t: seq<string>, id: Cell, reg: seq<Station>, c: Col)
    ensures c in HeaderSet ==> Get(CleanRow(t, id, reg), c) == CleanField(LoadRow(t), id, reg, c)
    ensures c !in HeaderSet ==> c !in CleanRow(t, id, reg)
  {
  }

  /** The loaded cells of a 22-token line are its tokens. */
  lemma LoadedTokens(t: seq<string>)
    requires |t| == |OpColumns|
    ensures var r := LoadRow(t);
      && Get(r, UsafIdCode) == Text(t[0]) && Get(r, WbanIdCode) == Text(t[1])
      && Get(r, Yrmoda) == Text(t[2]) && Get(r, MaxTemp) == Text(t[17]) && Get(r, MinTemp) == Text(t[18])
      && Get(r, Precipitation) == Text(t[19]) && Get(r, Frshtt) == Text(t[21])
  {
    LoadedKeyTokens(t);
    LoadedReadingTokens(t);
  }

  lemma LoadedKeyTokens(t: seq<string>)
    requires |t| == |OpColumns|
    ensures var r := LoadRow(t);
      && Get(r, UsafIdCode) == Text(t[0]) && Get(r, WbanIdCode) == Text(t[1]) && Get(r, Yrmoda) == Text(t[2])
  {
    LoadRowCell(t, UsafIdCode);
    LoadRowCell(t, WbanIdCode);
    LoadRowCell(t, Yrmoda);
  }

  lemma LoadedReadingTokens(t: seq<string>)
    requires |t| == |OpColumns|
    ensures var r := LoadRow(t);
      && Get(r, MaxTemp) == Text(t[17]) && Get(r, MinTemp) == Text(t[18])
      && Get(r, Precipitation) == Text(t[19]) && Get(r, Frshtt) == Text(t[21])
  {
    LoadedTemperatureTokens(t);
    LoadRowCell(t, Precipitation);
    LoadRowCell(t, Frshtt);
  }

  lemma LoadedTemperatureTokens(t: seq<string>)
    requires |t| == |OpColumns|
    ensures var r := LoadRow(t);
      Get(r, MaxTemp) == Text(t[17]) && Get(r, MinTemp) == Text(t[18])
  {
    LoadRowCell(t, MaxTemp);
    LoadRowCell(t, MinTemp);
  }

  // ---------------------------------------------------------------------
  // The station ID

  /** `ID_Code` is `USAF_ID_Code + '-' + WBAN_ID_Code`, and the three ID
      columns are never nulled, even when they hold a missing-value code
      such as `99999`. */
  lemma CleanRowIds(t: seq<string>, id: Cell, reg: seq<Station>)
    requires |t| == |OpColumns|
    ensures var c := CleanRow(t, id, reg);
      && Get(c, UsafIdCode) == Text(t[0])
      && Get(c, WbanIdCode) == Text(t[1])
      && Get(c, IdCode) == Text(t[0] + "-" + t[1])
  {
    var r := LoadRow(t);
    LoadedTokens(t);
    IdFields(r, id, reg);
    CleanRowCell(t, id, reg, UsafIdCode);
    CleanRowCell(t, id, reg, WbanIdCode);
    CleanRowCell(t, id, reg, IdCode);
  }

  lemma IdFields(r: Row, id: Cell, reg: seq<Station>)
    ensures UsafIdCode in HeaderSet && WbanIdCode in HeaderSet && IdCode in HeaderSet
    ensures CleanField(r, id, reg, UsafIdCode) == Get(r, UsafIdCode)
    ensures CleanField(r, id, reg, WbanIdCode) == Get(r, WbanIdCode)
    ensures CleanField(r, id, reg, IdCode) == Joined(Get(r, UsafIdCode), Get(r, WbanIdCode))
  {
  }

  // ---------------------------------------------------------------------
  // The measurements

  /** A measurement column holds its token, or NaN when the token contains a
      missing-value code. */
  lemma CleanRowMeasurement(t: seq<string>, id: Cell, reg: seq<Station>, c: Col)
    requires |t| == |OpColumns| && Measurement(c)
    ensures Position(c) < |t|
    ensures Get(CleanRow(t, id, reg), c) == NullIfMissing(Text(t[Position(c)]))
  {
    var r := LoadRow(t);
    MeasurementGroup(r, id, reg, c);
    MeasurementToken(t, c);
    CleanRowCell(t, id, reg, c);
  }

  lemma MeasurementToken(t: seq<string>, c: Col)
    requires |t| == |OpColumns| && Measurement(c)
    ensures Position(c) < |t| && Get(LoadRow(t), c) == Text(t[Position(c)])
  {
  }

  /** A measurement token holding a missing-value code reads NaN, and the
      same code in a station ID is kept. */
  lemma MissingMeasurementExample(t: seq<string>, id: Cell, reg: seq<Station>)
    requires |t| == |OpColumns| && t[0] == "999999" && t[3] == "9999.9"
    ensures Get(CleanRow(t, id, reg), MeanTemp) == Null
    ensures Get(CleanRow(t, id, reg), UsafIdCode) == Text("999999")
  {
    CleanRowMeasurement(t, id, reg, MeanTemp);
    CleanRowIds(t, id, reg);
    MeanTempAt();
    MissingMeanTemp();
  }

  lemma MeanTempAt()
    ensures Measurement(MeanTemp) && Position(MeanTemp) == 3
  {
  }

  /** `9999.9`, the code for a missing temperature, is nulled. */
  lemma MissingMeanTemp()
    ensures NullIfMissing(Text("9999.9")) == Null
  {
    assert MissingCodeAt("9999.9", 0, 4);
  }

  // ---------------------------------------------------------------------
  // The weather events

  /** Event column `j` (Fog, Rain_or_Drizzle, Snow_or_Ice, Hail, Thunder,
      Tornado) is character `j` of the FRSHTT token, and FRSHTT itself is
      gone. */
  lemma CleanRowEvents(t: seq<string>, id: Cell, reg: seq<Station>, j: nat)
    requires Readable(t) && j < |EventColumns|
    ensures Get(CleanRow(t, id, reg), EventColumns[j]) == Text([t[21][j]])
    ensures Frshtt !in CleanRow(t, id, reg)
  {
    var r, c := LoadRow(t), EventColumns[j];
    EventColumnIndex(j);
    LoadedTokens(t);
    EventGroup(r, id, reg, c);
    CleanRowCell(t, id, reg, c);
    CleanRowCell(t, id, reg, Frshtt);
    EventChar(t[21], j);
  }

  lemma EventColumnIndex(j: nat)
    requires j < |EventColumns|
    ensures EventsWritten(EventColumns[j]) && EventColumns[j] != Frshtt
    ensures EventIndex(EventColumns[j]) == j
    ensures Frshtt !in HeaderSet
  {
  }

  /** The event lambda on a code of at least six characters. */
  lemma EventChar(code: string, j: nat)
    requires |code| >= 6 && j < 6
    ensures NullIfMissing(Applied(EventAt(j), Text(code))) == Text([code[j]])
  {
    ShortNeverMissing([code[j]]);
  }

  // ---------------------------------------------------------------------
  // One written column at a time, with its lambda and source already known

  lemma DateFieldIs(r: Row, id: Cell, reg: seq<Station>, c: Col, op: CellOp)
    requires DatesWritten(c) && c != Yrmoda && DateOp(c) == op
    ensures CleanField(r, id, reg, c) == NullIfMissing(Applied(op, Get(r, Yrmoda)))
  {
    DateGroup(r, id, reg, c);
  }

  lemma FlagFieldIs(r: Row, id: Cell, reg: seq<Station>, c: Col, op: CellOp, src: Col)
    requires FlagsWritten(c) && FlagOp(c) == op && FlagSource(c) == src
    ensures CleanField(r, id, reg, c) == NullIfMissing(Applied(op, Get(r, src)))
  {
    FlagGroup(r, id, reg, c);
  }

  lemma MetaFieldIs(r: Row, id: Cell, reg: seq<Station>, c: Col, f: MetaField)
    requires MetaWritten(c) && c != StationName && MetaFieldOf(c) == f
    ensures CleanField(r, id, reg, c) == NullIfMissing(MetaCell(id, reg, f))
  {
    MetaGroup(r, id, reg, c);
  }

  // ---------------------------------------------------------------------
  // The date

  /** For the documented eight-character `yrmoda`, Year, Month and Day are
      its slices [:4], [4:6] and [6:], Date joins them with hyphens, none of
      them is ever nulled, and `yrmoda` itself is gone. */
  lemma CleanRowDate(t: seq<string>, id: Cell, reg: seq<Station>)
    requires |t| == |OpColumns| && |t[2]| == 8
    ensures var c, x := CleanRow(t, id, reg), t[2];
      && Get(c, Year) == Text(x[..4])
      && Get(c, Month) == Text(x[4..6])
      && Get(c, Day) == Text(x[6..])
      && Get(c, Date) == Text(x[..4] + "-" + x[4..6] + "-" + x[6..])
      && Yrmoda !in c
  {
    var r := LoadRow(t);
    LoadedTokens(t);
    YearMonthFields(r, id, reg);
    DayDateFields(r, id, reg);
    CleanRowCell(t, id, reg, Year);
    CleanRowCell(t, id, reg, Month);
    CleanRowCell(t, id, reg, Day);
    CleanRowCell(t, id, reg, Date);
    CleanRowCell(t, id, reg, Yrmoda);
    DateCells(t[2]);
  }

  lemma YearMonthFields(r: Row, id: Cell, reg: seq<Station>)
    ensures Year in HeaderSet && Month in HeaderSet && Yrmoda !in HeaderSet
    ensures CleanField(r, id, reg, Year) == NullIfMissing(Applied(YearPart, Get(r, Yrmoda)))
    ensures CleanField(r, id, reg, Month) == NullIfMissing(Applied(MonthPart, Get(r, Yrmoda)))
  {
    DateFieldIs(r, id, reg, Year, YearPart);
    DateFieldIs(r, id, reg, Month, MonthPart);
  }

  lemma DayDateFields(r: Row, id: Cell, reg: seq<Station>)
    ensures Day in HeaderSet && Date in HeaderSet
    ensures CleanField(r, id, reg, Day) == NullIfMissing(Applied(DayPart, Get(r, Yrmoda)))
    ensures CleanField(r, id, reg, Date) == NullIfMissing(Applied(JoinedDate, Get(r, Yrmoda)))
  {
    DateFieldIs(r, id, reg, Day, DayPart);
    DateFieldIs(r, id, reg, Date, JoinedDate);
  }

  /** The date lambdas on an eight-character `yrmoda`: never nulled. */
  lemma DateCells(x: string)
    requires |x| == 8
    ensures NullIfMissing(Applied(YearPart, Text(x))) == Text(x[..4])
    ensures NullIfMissing(Applied(MonthPart, Text(x))) == Text(x[4..6])
    ensures NullIfMissing(Applied(DayPart, Text(x))) == Text(x[6..])
    ensures NullIfMissing(Applied(JoinedDate, Text(x))) == Text(x[..4] + "-" + x[4..6] + "-" + x[6..])
  {
    DateParts(x);
    ShortNeverMissing(YearOf(x));
    ShortNeverMissing(MonthOf(x));
    ShortNeverMissing(DayOf(x));
    HyphenatedDateNeverMissing(DateOf(x));
  }

  /** The Date column of a hyphen-free eight-character `yrmoda` gives the
      `yrmoda` back once its hyphens are removed. */
  lemma CleanRowDateRoundTrip(t: seq<string>, id: Cell, reg: seq<Station>)
    requires |t| == |OpColumns| && |t[2]| == 8 && '-' !in t[2]
    ensures Get(CleanRow(t, id, reg), Date).Text?
    ensures WithoutHyphens(Get(CleanRow(t, id, reg), Date).s) == t[2]
  {
    CleanRowDate(t, id, reg);
    DateParts(t[2]);
    DateRoundTrip(t[2]);
  }

  // ---------------------------------------------------------------------
  // The quality flags

  lemma MaxTempFields(r: Row, id: Cell, reg: seq<Station>)
    ensures MaxTempQualityFlag in HeaderSet && MaxTemp in HeaderSet
    ensures CleanField(r, id, reg, MaxTempQualityFlag) == NullIfMissing(Applied(StarFlag, Get(r, MaxTemp)))
    ensures CleanField(r, id, reg, MaxTemp) == NullIfMissing(Applied(StripStars, Get(r, MaxTemp)))
  {
    FlagFieldIs(r, id, reg, MaxTempQualityFlag, StarFlag, MaxTemp);
    FlagFieldIs(r, id, reg, MaxTemp, StripStars, MaxTemp);
  }

  lemma MinTempFields(r: Row, id: Cell, reg: seq<Station>)
    ensures MinTempQualityFlag in HeaderSet && MinTemp in HeaderSet
    ensures CleanField(r, id, reg, MinTempQualityFlag) == NullIfMissing(Applied(StarFlag, Get(r, MinTemp)))
    ensures CleanField(r, id, reg, MinTemp) == NullIfMissing(Applied(StripStars, Get(r, MinTemp)))
  {
    FlagFieldIs(r, id, reg, MinTempQualityFlag, StarFlag, MinTemp);
    FlagFieldIs(r, id, reg, MinTemp, StripStars, MinTemp);
  }

  lemma PrecipFields(r: Row, id: Cell, reg: seq<Station>)
    ensures PrecipFlag in HeaderSet && Precipitation in HeaderSet
    ensures CleanField(r, id, reg, PrecipFlag) == NullIfMissing(Applied(LastChar, Get(r, Precipitation)))
    ensures CleanField(r, id, reg, Precipitation) == NullIfMissing(Applied(AllButLast, Get(r, Precipitation)))
  {
    FlagFieldIs(r, id, reg, PrecipFlag, LastChar, Precipitation);
    FlagFieldIs(r, id, reg, Precipitation, AllButLast, Precipitation);
  }

  /** The temperature flag is 1 exactly when the token ends in '*' and 0
      otherwise; the temperature is the token with its trailing '*'s
      stripped, NaN when that holds a missing-value code. */
  lemma CleanRowTemperatures(t: seq<string>, id: Cell, reg: seq<Station>)
    requires Readable(t)
    ensures var c, mx, mn := CleanRow(t, id, reg), t[17], t[18];
      && Get(c, MaxTempQualityFlag) == Int(if mx[|mx| - 1] == '*' then 1 else 0)
      && Get(c, MaxTemp) == NullIfMissing(Text(Unstarred(mx)))
      && Get(c, MinTempQualityFlag) == Int(if mn[|mn| - 1] == '*' then 1 else 0)
      && Get(c, MinTemp) == NullIfMissing(Text(Unstarred(mn)))
  {
    var r := LoadRow(t);
    LoadedTokens(t);
    MaxTempFields(r, id, reg);
    MinTempFields(r, id, reg);
    CleanRowCell(t, id, reg, MaxTempQualityFlag);
    CleanRowCell(t, id, reg, MaxTemp);
    CleanRowCell(t, id, reg, MinTempQualityFlag);
    CleanRowCell(t, id, reg, MinTemp);
    StarCells(t[17]);
    StarCells(t[18]);
  }

  /** The two temperature lambdas on a non-empty string. */
  lemma StarCells(x: string)
    requires |x| > 0
    ensures NullIfMissing(Applied(StarFlag, Text(x))) == Int(if x[|x| - 1] == '*' then 1 else 0)
    ensures NullIfMissing(Applied(StripStars, Text(x))) == NullIfMissing(Text(Unstarred(x)))
  {
  }

  /** Precip_Flag is the last character of the precipitation token and
      Precipitation the rest, NaN when that holds a missing-value code;
      when it does not, the two put together are the token. */
  lemma CleanRowPrecipitation(t: seq<string>, id: Cell, reg: seq<Station>)
    requires Readable(t)
    ensures var c, p := CleanRow(t, id, reg), t[19];
      && Get(c, PrecipFlag) == Text([p[|p| - 1]])
      && Get(c, Precipitation) == NullIfMissing(Text(p[..|p| - 1]))
      && (Get(c, Precipitation) != Null ==> Get(c, Precipitation).s + Get(c, PrecipFlag).s == p)
  {
    var r := LoadRow(t);
    LoadedTokens(t);
    PrecipFields(r, id, reg);
    CleanRowCell(t, id, reg, PrecipFlag);
    CleanRowCell(t, id, reg, Precipitation);
    PrecipCells(t[19]);
  }

  /** The two precipitation lambdas on a non-empty string. */
  lemma PrecipCells(p: string)
    requires |p| > 0
    ensures NullIfMissing(Applied(LastChar, Text(p))) == Text([p[|p| - 1]])
    ensures NullIfMissing(Applied(AllButLast, Text(p))) == NullIfMissing(Text(p[..|p| - 1]))
    ensures NullIfMissing(Text(p[..|p| - 1])) != Null ==> NullIfMissing(Text(p[..|p| - 1])).s + [p[|p| - 1]] == p
  {
    ShortNeverMissing([p[|p| - 1]]);
    assert PySlice(p, 0, -1) == p[..|p| - 1];
    assert p[..|p| - 1] + [p[|p| - 1]] == p;
  }

  // ---------------------------------------------------------------------
  // The registry columns

  lemma ElevationField(r: Row, id: Cell, reg: seq<Station>)
    ensures Elevation in HeaderSet && StationName !in HeaderSet
    ensures CleanField(r, id, reg, Elevation) == NullIfMissing(MetaCell(id, reg, ElevField))
  {
    MetaFieldIs(r, id, reg, Elevation, ElevField);
  }

  lemma LatitudeField(r: Row, id: Cell, reg: seq<Station>)
    ensures Latitude in HeaderSet
    ensures CleanField(r, id, reg, Latitude) == NullIfMissing(MetaCell(id, reg, LatField))
  {
    MetaFieldIs(r, id, reg, Latitude, LatField);
  }

  lemma LongitudeField(r: Row, id: Cell, reg: seq<Station>)
    ensures Longitude in HeaderSet
    ensures CleanField(r, id, reg, Longitude) == NullIfMissing(MetaCell(id, reg, LonField))
  {
    MetaFieldIs(r, id, reg, Longitude, LonField);
  }

  lemma CountryCodeField(r: Row, id: Cell, reg: seq<Station>)
    ensures CountryCode in HeaderSet
    ensures CleanField(r, id, reg, CountryCode) == NullIfMissing(MetaCell(id, reg, CtryField))
  {
    MetaFieldIs(r, id, reg, CountryCode, CtryField);
  }

  /** The registry's numeric fields are never text, so never nulled. */
  lemma NumericMetaKept(id: Cell, reg: seq<Station>)
    ensures NullIfMissing(MetaCell(id, reg, ElevField)) == MetaCell(id, reg, ElevField)
    ensures NullIfMissing(MetaCell(id, reg, LatField)) == MetaCell(id, reg, LatField)
    ensures NullIfMissing(MetaCell(id, reg, LonField)) == MetaCell(id, reg, LonField)
  {
  }

  /** The registry columns are the station's fields (NaN for a station absent
      from the registry), a country code being nulled like any text cell
      holding a missing-value code; the station name is not kept. */
  lemma CleanRowMetadata(t: seq<string>, id: Cell, reg: seq<Station>)
    ensures var c := CleanRow(t, id, reg);
      && Get(c, Elevation) == MetaCell(id, reg, ElevField)
      && Get(c, Latitude) == MetaCell(id, reg, LatField)
      && Get(c, Longitude) == MetaCell(id, reg, LonField)
      && Get(c, CountryCode) == NullIfMissing(MetaCell(id, reg, CtryField))
      && StationName !in c
  {
    var r := LoadRow(t);
    ElevationField(r, id, reg);
    LatitudeField(r, id, reg);
    LongitudeField(r, id, reg);
    CountryCodeField(r, id, reg);
    NumericMetaKept(id, reg);
    CleanRowCell(t, id, reg, Elevation);
    CleanRowCell(t, id, reg, Latitude);
    CleanRowCell(t, id, reg, Longitude);
    CleanRowCell(t, id, reg, CountryCode);
    CleanRowCell(t, id, reg, StationName);
  }

  /** Every row of a file carries the registry fields of the station of its
      first line. */
  lemma CleanRowsStation(lines: seq<seq<string>>, reg: seq<Station>, i: nat)
    requires i < |DataLines(lines)|
    ensures var c := CleanRows(lines, reg)[i];
      && Get(c, Elevation) == MetaCell(FileStation(lines), reg, ElevField)
      && Get(c, Latitude) == MetaCell(FileStation(lines), reg, LatField)
      && Get(c, Longitude) == MetaCell(FileStation(lines), reg, LonField)
  {
    CleanRowMetadata(DataLines(lines)[i], FileStation(lines), reg);
  }
}
