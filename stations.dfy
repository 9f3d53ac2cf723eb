/** The station metadata registry (NOAA's isd-history): its rows, the
    cleaning of implausible coordinates and unknown names
    (`clean_history_metadata`, `clean_bogus_name`), and the lookup by station
    ID that the transformer joins into every record (`get_metadata`, and
    `add_metadata` in the earlier draft). */
module Stations {
  import opened Common

  /** One registry row. Every attribute is NaN-able. The registry's begin and
      end dates, state and ICAO code are not used by the core. */
  datatype Station = Station(
    usaf: Option<string>,
    wban: Option<string>,
    name: Option<string>,
    country: Option<string>,
    lat: Option<real>,
    lon: Option<real>,
    elev: Option<real>)

  /** The registry's station ID, `USAF + '-' + WBAN` (NaN when either is). */
  function StationId(s: Station): Option<string> {
    if s.usaf.Some? && s.wban.Some? then Some(s.usaf.value + "-" + s.wban.value) else None
  }

  /** The lowest point on dry land, in metres. */
  const LowestDryLand: real := -418.0

  /** Names NOAA uses for a station whose name or place is unknown. */
  const InvalidNames: seq<string> := [
    "NAME/LOCATION UNKN", "NAME UNKNOWN (ONC)", "APPROXIMATE LOCATIO",
    "APPROXIMATE LOCALE", "APPROXIMATE LOCATION", "NAME AND LOC UNKN",
    "NAME UNKNOWN", "NAME0LOCATION UNKN", "NAME\\LOCATION UNKN"]

  /** `clean_bogus_name`: a name mentioning BOGUS or UNKNOWN becomes NaN. */
  function CleanBogusName(n: Option<string>): Option<string> {
    match n
    case None => None
    case Some(s) => if Contains(s, "BOGUS") || Contains(s, "UNKNOWN") then None else n
  }

  /** The name column of `clean_history_metadata`: the exact invalid names are
      replaced by NaN first, then `clean_bogus_name` is applied. */
  function CleanName(n: Option<string>): Option<string> {
    var replaced := if n.Some? && n.value in InvalidNames then None else n;
    CleanBogusName(replaced)
  }

  function CleanElevation(e: Option<real>): Option<real> {
    if e.Some? && e.value >= LowestDryLand then e else None
  }

  function CleanLatitude(l: Option<real>): Option<real> {
    if l.Some? && -90.0 < l.value < 90.0 then l else None
  }

  function CleanLongitude(l: Option<real>): Option<real> {
    if l.Some? && -180.0 < l.value < 180.0 then l else None
  }

  function CleanStation(s: Station): Station {
    s.(name := CleanName(s.name), lat := CleanLatitude(s.lat),
       lon := CleanLongitude(s.lon), elev := CleanElevation(s.elev))
  }

  /** `clean_history_metadata`: every column operation is applied row-wise. */
  function CleanHistoryMetadata(reg: seq<Station>): seq<Station> {
    seq(|reg|, i requires 0 <= i < |reg| => CleanStation(reg[i]))
  }

  /** What `clean_history_metadata` keeps: an elevation of at least -418 m, a
      latitude strictly inside (-90, 90), a longitude strictly inside
      (-180, 180), and a name that is not one of the invalid names and does
      not mention BOGUS or UNKNOWN; the IDs and the country are untouched. */
  lemma CleanHistoryMetadataSpec(reg: seq<Station>, i: int)
    requires 0 <= i < |reg|
    ensures |CleanHistoryMetadata(reg)| == |reg|
    ensures var s, c := reg[i], CleanHistoryMetadata(reg)[i];
      && c.usaf == s.usaf && c.wban == s.wban && c.country == s.country
      && (c.elev.Some? <==> s.elev.Some? && s.elev.value >= -418.0)
      && (c.lat.Some? <==> s.lat.Some? && -90.0 < s.lat.value < 90.0)
      && (c.lon.Some? <==> s.lon.Some? && -180.0 < s.lon.value < 180.0)
      && (c.elev.Some? ==> c.elev == s.elev)
      && (c.lat.Some? ==> c.lat == s.lat)
      && (c.lon.Some? ==> c.lon == s.lon)
      && (c.name.Some? <==> s.name.Some? && s.name.value !in InvalidNames
                            && !Contains(s.name.value, "BOGUS") && !Contains(s.name.value, "UNKNOWN"))
      && (c.name.Some? ==> c.name == s.name)
  {
  }

  /** Cleaning a cleaned registry changes nothing. */
  lemma CleanHistoryMetadataIdempotent(reg: seq<Station>)
    ensures CleanHistoryMetadata(CleanHistoryMetadata(reg)) == CleanHistoryMetadata(reg)
  {
  }

  /** The boundary values of the bounds filter. */
  lemma BoundsExamples()
    ensures CleanElevation(Some(-500.0)) == None && CleanElevation(Some(-418.0)) == Some(-418.0)
    ensures CleanLatitude(Some(91.0)) == None && CleanLatitude(Some(-89.9)) == Some(-89.9)
    ensures CleanLatitude(Some(90.0)) == None && CleanLongitude(Some(-180.0)) == None
  {
  }

  /** A name containing BOGUS anywhere is dropped; an ordinary name is kept. */
  lemma BogusNameExamples()
    ensures CleanName(Some("BOGUS CHINA")) == None
    ensures CleanName(Some("APPROXIMATE LOCALE")) == None
    ensures CleanName(Some("SITKA")) == Some("SITKA")
  {
    assert OccursAt("BOGUS", "BOGUS CHINA", 0);
    assert "SITKA"[..5][0] != "BOGUS"[0];
    assert "SITKA"[1..] == "ITKA";
    assert !Contains("ITKA", "BOGUS");
    assert !Contains("SITKA", "BOGUS") && !Contains("SITKA", "UNKNOWN");
  }

  /** The registry columns joined into a record: `ELEV(M)`, `STATION NAME`,
      `CTRY`, `LAT` and `LON`. */
  datatype MetaField = ElevField | NameField | CtryField | LatField | LonField

  function FieldCell(s: Station, f: MetaField): Cell {
    match f
    case ElevField => OptionToFloat(s.elev)
    case NameField => OptionToText(s.name)
    case CtryField => OptionToText(s.country)
    case LatField => OptionToFloat(s.lat)
    case LonField => OptionToFloat(s.lon)
  }

  /** The position of the registry row indexed by `id`: the first one with
      that station ID, or -1. */
  function FirstIndex(reg: seq<Station>, id: string): (i: int)
    ensures -1 <= i < |reg|
    ensures i == -1 <==> forall j :: 0 <= j < |reg| ==> StationId(reg[j]) != Some(id)
    ensures i >= 0 ==> StationId(reg[i]) == Some(id) && forall j :: 0 <= j < i ==> StationId(reg[j]) != Some(id)
  {
    if |reg| == 0 then -1
    else if StationId(reg[0]) == Some(id) then 0
    else
      var k := FirstIndex(reg[1..], id);
      assert forall j :: 0 < j < |reg| ==> reg[j] == reg[1..][j - 1];
      if k == -1 then -1 else k + 1
  }

  /** The registry row indexed by `id`. */
  function FindStation(reg: seq<Station>, id: string): Option<Station> {
    var i := FirstIndex(reg, id);
    if i == -1 then None else Some(reg[i])
  }

  /** `get_metadata`: NaN when the station is not in the registry, the
      station's field otherwise. */
  function GetMetadata(id: string, reg: seq<Station>, f: MetaField): Cell {
    match FindStation(reg, id)
    case None => Null
    case Some(s) => FieldCell(s, f)
  }

  /** The lookup is by exact station ID: an ID absent from the registry gives
      NaN for every field, a present one gives the field of its first row,
      and all fields come from that same row. */
  lemma GetMetadataSpec(id: string, reg: seq<Station>)
    ensures (forall j :: 0 <= j < |reg| ==> StationId(reg[j]) != Some(id)) ==>
      forall f :: GetMetadata(id, reg, f) == Null
    ensures forall i :: 0 <= i < |reg| && StationId(reg[i]) == Some(id)
                        && (forall j :: 0 <= j < i ==> StationId(reg[j]) != Some(id)) ==>
      forall f :: GetMetadata(id, reg, f) == FieldCell(reg[i], f)
  {
    var k := FirstIndex(reg, id);
    forall i | 0 <= i < |reg| && StationId(reg[i]) == Some(id)
               && (forall j :: 0 <= j < i ==> StationId(reg[j]) != Some(id))
      ensures k == i
    {
      assert !(k < i) && !(i < k);
    }
  }
}
