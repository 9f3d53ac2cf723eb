/** `update_metadata`: the station registry is reconciled with the stations
    the inventory actually holds. Registry stations the inventory does not
    list are dropped; stations the inventory lists but the registry lacks are
    added, once per ID, with only their USAF and WBAN codes known. */
module Metadata {
  import opened Common
  import opened Stations
  import opened Frames
  import opened Inventory

  /** A station's ID as a cell (`metadata.index`, NaN when either code is). */
  function IdCell(s: Station): Cell {
    OptionToText(StationId(s))
  }

  /** The IDs a sequence of stations carries. */
  function IdsOf(ss: seq<Station>): set<Cell> {
    set s | s in ss :: IdCell(s)
  }

  /** The IDs the inventory lists (`inventory.ID`). */
  function InventoryIds(t: Table): set<Cell> {
    set x | x in t :: Get(x.row, Id)
  }

  /** Every inventory row's ID is its USAF and WBAN codes joined by a
      hyphen, NaN when either is (rows seeded from NOAA's inventory, and the
      appended summaries, whose three cells are all NaN). */
  predicate WellFormedIds(t: Table) {
    forall x :: x in t ==> Get(x.row, Id) == Joined(Get(x.row, Usaf), Get(x.row, Wban))
  }

  /** `metadata[metadata.index.isin(inventory.ID)]`: the registry stations
      whose ID the inventory lists, in registry order. */
  function Kept(reg: seq<Station>, ids: set<Cell>): (r: seq<Station>)
    ensures |r| <= |reg|
  {
    if |reg| == 0 then []
    else (if IdCell(reg[0]) in ids then [reg[0]] else []) + Kept(reg[1..], ids)
  }

  /** A station built from an inventory row with only its USAF and WBAN
      codes (`reindex(columns=metadata.columns)` on `['ID', 'USAF', 'WBAN']`). */
  function MinimalStation(r: Row): (s: Station)
    ensures s.name.None? && s.country.None? && s.lat.None? && s.lon.None? && s.elev.None?
  {
    Station(TextToOption(Get(r, Usaf)), TextToOption(Get(r, Wban)), None, None, None, None, None)
  }

  /** `inventory[~inventory.ID.isin(ids)]` with `drop_duplicates(subset='ID')`:
      the first row of each ID not in `ids`, as a minimal station. The IDs
      already taken grow as the rows are scanned. */
  function Extras(t: Table, ids: set<Cell>): (r: seq<Station>)
    ensures |r| <= |t|
  {
    if |t| == 0 then []
    else
      var id := Get(t[0].row, Id);
      if id in ids then Extras(t[1..], ids)
      else [MinimalStation(t[0].row)] + Extras(t[1..], ids + {id})
  }

  /** `update_metadata`: the extra stations first, then the kept ones. */
  function UpdateMetadata(reg: seq<Station>, t: Table): seq<Station> {
    var kept := Kept(reg, InventoryIds(t));
    Extras(t, IdsOf(kept)) + kept
  }

  /** No two stations share an ID. */
  predicate DistinctIds(ss: seq<Station>) {
    forall i, j :: 0 <= i < j < |ss| ==> IdCell(ss[i]) != IdCell(ss[j])
  }

  /** A kept station is a registry station whose ID the inventory lists, and
      every such station is kept. */
  lemma {:induction false} KeptSpec(reg: seq<Station>, ids: set<Cell>, s: Station)
    ensures s in Kept(reg, ids) <==> s in reg && IdCell(s) in ids
  {
    if |reg| > 0 {
      KeptSpec(reg[1..], ids, s);
      assert reg == [reg[0]] + reg[1..];
    }
  }

  /** A row's ID is the ID of the minimal station built from it. */
  lemma MinimalStationId(x: Keyed, t: Table)
    requires x in t && WellFormedIds(t)
    ensures IdCell(MinimalStation(x.row)) == Get(x.row, Id)
  {
  }

  /** The IDs of the inventory, split at its first row. */
  lemma InventoryIdsCons(t: Table)
    requires |t| > 0
    ensures InventoryIds(t) == {Get(t[0].row, Id)} + InventoryIds(t[1..])
  {
    assert t == [t[0]] + t[1..];
    forall c | c in InventoryIds(t)
      ensures c in {Get(t[0].row, Id)} + InventoryIds(t[1..])
    {
      var x :| x in t && Get(x.row, Id) == c;
      if x != t[0] {
        assert x in t[1..];
      }
    }
  }

  /** The extras carry exactly the inventory's IDs outside `ids`, each once,
      and none of `ids`. */
  lemma {:induction false} ExtrasIds(t: Table, ids: set<Cell>)
    requires WellFormedIds(t)
    ensures IdsOf(Extras(t, ids)) == InventoryIds(t) - ids
    ensures DistinctIds(Extras(t, ids))
    ensures forall s :: s in Extras(t, ids) ==> IdCell(s) !in ids
  {
    if |t| > 0 {
      var id := Get(t[0].row, Id);
      InventoryIdsCons(t);
      assert WellFormedIds(t[1..]) by {
        forall x | x in t[1..] ensures x in t { }
      }
      MinimalStationId(t[0], t);
      if id in ids {
        ExtrasIds(t[1..], ids);
      } else {
        var rest := Extras(t[1..], ids + {id});
        ExtrasIds(t[1..], ids + {id});
        var m := MinimalStation(t[0].row);
        assert Extras(t, ids) == [m] + rest;
        assert IdsOf([m] + rest) == {id} + IdsOf(rest) by {
          forall s | s in [m] + rest ensures s == m || s in rest { }
        }
        forall i, j | 0 <= i < j < |[m] + rest|
          ensures IdCell(([m] + rest)[i]) != IdCell(([m] + rest)[j])
        {
          if i == 0 {
            assert rest[j - 1] in rest;
          }
        }
      }
    }
  }

  /** The reconciled registry lists exactly the inventory's IDs. */
  lemma UpdateMetadataIds(reg: seq<Station>, t: Table)
    requires WellFormedIds(t)
    ensures IdsOf(UpdateMetadata(reg, t)) == InventoryIds(t)
  {
    var kept := Kept(reg, InventoryIds(t));
    var extras := Extras(t, IdsOf(kept));
    ExtrasIds(t, IdsOf(kept));
    forall c | c in IdsOf(kept) ensures c in InventoryIds(t) {
      var s :| s in kept && IdCell(s) == c;
      KeptSpec(reg, InventoryIds(t), s);
    }
    assert IdsOf(extras + kept) == IdsOf(extras) + IdsOf(kept) by {
      forall s | s in extras + kept ensures s in extras || s in kept { }
    }
  }

  /** The reconciled registry keeps each listed registry station unchanged
      and adds nothing but minimal stations with new, distinct IDs. */
  lemma UpdateMetadataParts(reg: seq<Station>, t: Table, s: Station)
    requires WellFormedIds(t)
    ensures var kept := Kept(reg, InventoryIds(t));
      s in UpdateMetadata(reg, t) <==>
        (s in reg && IdCell(s) in InventoryIds(t)) || s in Extras(t, IdsOf(kept))
    ensures var kept := Kept(reg, InventoryIds(t));
      s in Extras(t, IdsOf(kept)) ==>
        s.name.None? && s.country.None? && s.lat.None? && s.lon.None? && s.elev.None? &&
        IdCell(s) !in IdsOf(kept)
    ensures DistinctIds(Extras(t, IdsOf(Kept(reg, InventoryIds(t)))))
  {
    var kept := Kept(reg, InventoryIds(t));
    KeptSpec(reg, InventoryIds(t), s);
    ExtrasIds(t, IdsOf(kept));
    if s in Extras(t, IdsOf(kept)) {
      ExtrasMinimal(t, IdsOf(kept), s);
    }
  }

  /** Every extra station is a minimal one built from an inventory row. */
  lemma {:induction false} ExtrasMinimal(t: Table, ids: set<Cell>, s: Station)
    requires s in Extras(t, ids)
    ensures exists x :: x in t && s == MinimalStation(x.row) && Get(x.row, Id) !in ids
  {
    var id := Get(t[0].row, Id);
    if id in ids {
      ExtrasMinimal(t[1..], ids, s);
      var x :| x in t[1..] && s == MinimalStation(x.row) && Get(x.row, Id) !in ids;
      assert x in t;
    } else if s != MinimalStation(t[0].row) {
      ExtrasMinimal(t[1..], ids + {id}, s);
      var x :| x in t[1..] && s == MinimalStation(x.row) && Get(x.row, Id) !in ids + {id};
      assert x in t;
    }
  }

  /** An inventory seeded from NOAA's copy has well-formed IDs. */
  lemma SeededWellFormed(noaa: seq<Row>)
    ensures WellFormedIds(LoadIsdInventory(None, noaa))
  {
    var t := LoadIsdInventory(None, noaa);
    forall x | x in t ensures Get(x.row, Id) == Joined(Get(x.row, Usaf), Get(x.row, Wban)) {
      var i :| 0 <= i < |t| && t[i] == x;
      assert Usaf in InventoryColumns && Wban in InventoryColumns;
    }
  }

  /** A station-year summary has no ID, USAF or WBAN cell, so it is
      well-formed. */
  lemma SummaryWellFormed(rows: seq<Row>)
    requires InventoryStationsYear(rows).Ok?
    ensures WellFormedIds([InventoryStationsYear(rows).value])
  {
    SummaryColumnsHold();
  }

  /** Upserting a well-formed row keeps the inventory well-formed. */
  lemma UpsertWellFormed(t: Table, s: Keyed)
    requires WellFormedIds(t) && WellFormedIds([s])
    ensures WellFormedIds(Upsert(t, s))
  {
    forall x | x in Upsert(t, s) ensures x in t || x == s {
      assert x in Without(t, s.key) || x in [s];
    }
  }
}
