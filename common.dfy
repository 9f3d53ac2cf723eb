/** Values shared by every part of the GSOD model: optional values, error
    results, the cells of a pandas frame, and the few Python string
    operations (slicing with negative bounds, find/rfind, rstrip, `in`)
    that the source relies on. */
module Common {

  datatype Option<T> = None | Some(value: T)

  /** Why an operation that would raise in the source did not produce a value. */
  datatype Error =
    | WidthMismatch                // the token rows do not have exactly 22 columns
    | BadCell(step: string)        // a per-cell lambda of this step raised (an index past the end, or NaN)
    | Unreadable(path: string)     // a file that is missing or is not a gzip stream
    | EmptyFrame                   // `.iloc[0]` on a frame with no rows
    | MonthGroups                  // the month groups cannot be renamed JAN..DEC
    | Unaligned                    // two series compared whose labels differ

  datatype Result<T> = Ok(value: T) | Err(error: Error)

  /** One cell of a frame. `Null` is pandas' NaN/None; `Int` holds the 0/1
      quality flags and the monthly counts; `Float` holds the registry's
      elevation, latitude and longitude; `Time` holds a timestamp. */
  datatype Cell = Null | Text(s: string) | Int(n: int) | Float(x: real) | Time(t: int)

  /** The column names the core uses, in the source's spelling:
      the 22 columns of a `.op` line (`USAF_ID_Code` ... `FRSHTT`), the
      columns the transformer derives from them and joins from the registry
      (`ID_Code`, `Year`, `Month`, `Day`, `Date`, the six weather events, the
      three flags, `Elevation`, `Station_Name`, `Country_Code`, `Latitude`,
      `Longitude`), and the columns of the station-year inventory (`ID`,
      `USAF`, `WBAN`, `YEAR`, `Last_Updated`, `JAN` ... `DEC`). */
  datatype Col =
    | UsafIdCode | WbanIdCode | Yrmoda
    | MeanTemp | MeanTempCount | MeanDewpoint | MeanDewpointCount
    | MeanSeaLevelPressure | MeanSeaLevelPressureCount
    | MeanStationPressure | MeanStationPressureCount
    | MeanVisibility | MeanVisibilityCount | MeanWindspeed | MeanWindspeedCount
    | MaxWindspeed | MaxGust | MaxTemp | MinTemp | Precipitation | SnowDepth | Frshtt
    | IdCode | Year | Month | Day | Date
    | Fog | RainOrDrizzle | SnowOrIce | Hail | Thunder | Tornado
    | MaxTempQualityFlag | MinTempQualityFlag | PrecipFlag
    | Elevation | StationName | CountryCode | Latitude | Longitude
    | Id | Usaf | Wban | YearKey | LastUpdated
    | Jan | Feb | Mar | Apr | May | Jun | Jul | Aug | Sep | Oct | Nov | Dec

  /** A frame row: column to cell. */
  type Row = map<Col, Cell>

  /** The cell of column `c`, reading an absent column as NaN, as pandas does
      for a row appended without that column. */
  function Get(r: Row, c: Col): Cell {
    if c in r then r[c] else Null
  }

  function OptionToText(o: Option<string>): Cell {
    if o.Some? then Text(o.value) else Null
  }

  function OptionToFloat(o: Option<real>): Cell {
    if o.Some? then Float(o.value) else Null
  }

  function TextToOption(c: Cell): Option<string> {
    if c.Text? then Some(c.s) else None
  }

  /** Python's normalisation of a slice bound against a length. */
  function SliceBound(i: int, n: nat): (r: nat)
    ensures r <= n
    ensures 0 <= i <= n ==> r == i
    ensures i < 0 && -i <= n ==> r == n + i
  {
    if i < 0 then (if i + n < 0 then 0 else i + n)
    else if i > n then n
    else i
  }

  /** `s[start:stop]` with Python's semantics: negative bounds count from the
      end and out-of-range bounds are clamped. */
  function PySlice(s: string, start: int, stop: int): (r: string)
    ensures |r| <= |s|
  {
    var a := SliceBound(start, |s|);
    var b := SliceBound(stop, |s|);
    if a < b then s[a..b] else ""
  }

  /** `s.find(c)`: the first index of `c`, or -1. */
  function Find(s: string, c: char): (r: int)
    ensures -1 <= r < |s|
    ensures r == -1 <==> c !in s
    ensures r >= 0 ==> s[r] == c && c !in s[..r]
  {
    if |s| == 0 then -1
    else if s[0] == c then 0
    else
      var k := Find(s[1..], c);
      assert s == [s[0]] + s[1..];
      if k == -1 then -1 else k + 1
  }

  /** `s.rfind(c)`: the last index of `c`, or -1. */
  function RFind(s: string, c: char): (r: int)
    ensures -1 <= r < |s|
    ensures r == -1 <==> c !in s
    ensures r >= 0 ==> s[r] == c && c !in s[r + 1..]
  {
    if |s| == 0 then -1
    else if s[|s| - 1] == c then |s| - 1
    else
      assert s == s[..|s| - 1] + [s[|s| - 1]];
      RFind(s[..|s| - 1], c)
  }

  /** `s.rstrip(chars)`: drops the longest suffix made of characters of `chars`. */
  function RStrip(s: string, chars: set<char>): (r: string)
    ensures |r| <= |s| && r == s[..|r|]
    ensures |r| > 0 ==> r[|r| - 1] !in chars
    ensures forall j :: |r| <= j < |s| ==> s[j] in chars
  {
    if |s| > 0 && s[|s| - 1] in chars then RStrip(s[..|s| - 1], chars) else s
  }

  /** `sub` occurs in `s` starting at index `k`. */
  predicate OccursAt(sub: string, s: string, k: int) {
    0 <= k && k + |sub| <= |s| && s[k..k + |sub|] == sub
  }

  /** Python's `sub in s` on strings. */
  function Contains(s: string, sub: string): (b: bool)
    ensures b <==> exists k :: OccursAt(sub, s, k)
    decreases |s|
  {
    if |sub| > |s| then false
    else if s[..|sub|] == sub then
      assert OccursAt(sub, s, 0);
      true
    else
      var t := s[1..];
      var rest := Contains(t, sub);
      if rest then
        var k :| OccursAt(sub, t, k);
        assert t[k..k + |sub|] == s[k + 1..k + 1 + |sub|];
        assert OccursAt(sub, s, k + 1);
        true
      else
        assert forall k :: OccursAt(sub, s, k) ==> OccursAt(sub, t, k - 1) by {
          forall k | OccursAt(sub, s, k) ensures OccursAt(sub, t, k - 1) {
            assert k != 0;
            assert t[k - 1..k - 1 + |sub|] == s[k..k + |sub|];
          }
        }
        false
  }
}
