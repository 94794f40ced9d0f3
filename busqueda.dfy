/**
 * The `Busquedas` class of Models/busqueda.js: the in-memory search history,
 * its persistence to the database file, its display form, and the projection
 * of a geocoding response onto place candidates.
 *
 * The database file (`./db/database.json`) is the field `db` of a `Disk`
 * object that every `Busquedas` built on it shares, so that a second store
 * can reload what a first one saved. Its content is abstracted to the list it
 * holds: JSON encoding and the `fs` calls are not modelled, and whether an
 * individual read or write fails is a parameter of the operation.
 */
module Busqueda {
  import opened Wrappers
  import opened Text
  import opened Historial

  /** What the database file holds, as `leerDB` sees it. */
  datatype DbFile =
    | Missing                            // `fs.existsSync` is false
    | Unparsable                         // present, but `JSON.parse` throws
    | Stored(historial: seq<string>)     // `{ "historial": [...] }`

  /** The file system location of the database. */
  class Disk {
    var db: DbFile

    constructor(db: DbFile)
      ensures this.db == db
    {
      this.db := db;
    }
  }

  class Busquedas {
    /** Places searched, most recent first. */
    var historial: seq<string>
    /** Where `guardarDB` writes and `leerDB` reads. */
    const disk: Disk

    /** Starts with an empty history, then loads the database file. */
    constructor(disk: Disk, readFails: bool)
      ensures this.disk == disk && disk.db == old(disk.db)
      ensures disk.db.Stored? && !readFails ==> historial == disk.db.historial
      ensures !(disk.db.Stored? && !readFails) ==> historial == []
    {
      this.disk := disk;
      historial := [];
      new;
      LeerDB(readFails);
    }

    /** The history as displayed: each entry split on ' ', every piece capitalised. */
    function HistorialCapitalizado(): (r: seq<string>)
      reads this
      ensures |r| == |historial|
      ensures forall i :: 0 <= i < |r| ==> Split(r[i]) == CapitalizeWords(Split(historial[i]))
    {
      CapitalizeHistory(historial)
    }

    /**
     * Adds `lugar` in lower case at the front of the history unless it is
     * already there; a new entry is saved at once. `writeFails` stands for
     * `fs.writeFileSync` throwing, which is reported and otherwise ignored.
     */
    method AgregarHistorial(lugar: string, writeFails: bool)
      modifies this, disk
      ensures historial == Inserted(old(historial), lugar)
      ensures LowerStr(lugar) in old(historial) ==>
                historial == old(historial) && disk.db == old(disk.db)
      ensures LowerStr(lugar) !in old(historial) ==>
                historial == [LowerStr(lugar)] + old(historial)
                && disk.db == (if writeFails then old(disk.db) else Stored(historial))
      ensures NoDuplicates(old(historial)) ==> NoDuplicates(historial)
    {
      var term := LowerStr(lugar);
      if term in historial {
        return;
      }
      if NoDuplicates(historial) {
        InsertedKeepsDistinct(historial, lugar);
      }
      historial := [term] + historial;
      GuardarDB(writeFails);
    }

    /** Overwrites the database file with the current history; a failed write changes nothing. */
    method GuardarDB(writeFails: bool)
      modifies disk
      ensures historial == old(historial)
      ensures disk.db == if writeFails then old(disk.db) else Stored(historial)
    {
      if !writeFails {
        disk.db := Stored(historial);
      }
    }

    /**
     * Loads the history from the database file: nothing happens when the file
     * is missing, and a failed read or parse (reported) keeps the current
     * history. `readFails` stands for `fs.readFileSync` throwing.
     */
    method LeerDB(readFails: bool)
      modifies this
      ensures disk.db.Stored? && !readFails ==> historial == disk.db.historial
      ensures !(disk.db.Stored? && !readFails) ==> historial == old(historial)
    {
      if disk.db == Missing {
        return;
      }
      if !readFails && disk.db.Stored? {
        historial := disk.db.historial;
      }
    }
  }

  /** Saving and then building a fresh store on the same disk reproduces the history. */
  method ReloadAfterSave(b: Busquedas) returns (c: Busquedas)
    modifies b.disk
    ensures b.historial == old(b.historial)
    ensures c.disk == b.disk && c.historial == b.historial
  {
    b.GuardarDB(false);
    c := new Busquedas(b.disk, false);
  }

  /** With no database file, adding "Madrid" then "Paris" stores ["paris", "madrid"]. */
  method MadridThenParis() returns (b: Busquedas)
    ensures b.historial == ["paris", "madrid"]
    ensures b.disk.db == Stored(["paris", "madrid"])
  {
    var disk := new Disk(Missing);
    b := new Busquedas(disk, false);
    b.AgregarHistorial("Madrid", false);
    b.AgregarHistorial("Paris", false);
    InsertedMostRecentFirst();
  }

  // ---------------------------------------------------------------------
  // Geocoding response (ciudad)
  // ---------------------------------------------------------------------

  /** One entry of the response's `features`; coordinates are of an opaque type `C`. */
  datatype Feature<C> = Feature(id: string, placeName: string, center: Option<seq<C>>)

  /** A place candidate; a coordinate the response does not have is `undefined`, here `None`. */
  datatype Lugar<C> = Lugar(id: string, nombre: string, lng: Option<C>, lat: Option<C>)

  /** JavaScript indexing: an index past the end yields `undefined`. */
  function At<C>(s: seq<C>, i: nat): (r: Option<C>)
    ensures r.Some? <==> i < |s|
    ensures r.Some? ==> r.value == s[i]
  {
    if i < |s| then Some(s[i]) else None
  }

  /**
   * The candidate for a feature that has a `center`: its `id` and name, and
   * the first two entries of `center`, each `undefined` if the array is
   * too short.
   */
  function ToLugar<C>(f: Feature<C>): (r: Lugar<C>)
    requires f.center.Some?
    ensures r.id == f.id && r.nombre == f.placeName
    ensures r.lng.Some? <==> |f.center.value| >= 1
    ensures r.lat.Some? <==> |f.center.value| >= 2
    ensures r.lng.Some? ==> r.lng.value == f.center.value[0]
    ensures r.lat.Some? ==> r.lat.value == f.center.value[1]
  {
    Lugar(f.id, f.placeName, At(f.center.value, 0), At(f.center.value, 1))
  }

  predicate AllCentered<C>(fs: seq<Feature<C>>) {
    forall k :: 0 <= k < |fs| ==> fs[k].center.Some?
  }

  /** `features.map(...)`; `None` when some feature has no `center` (the map throws). */
  function ProjectAll<C>(fs: seq<Feature<C>>): (r: Option<seq<Lugar<C>>>)
    ensures r.Some? <==> AllCentered(fs)
    ensures r.Some? ==> |r.value| == |fs|
    ensures r.Some? ==> forall k :: 0 <= k < |fs| ==> r.value[k] == ToLugar(fs[k])
  {
    if |fs| == 0 then Some([])
    else if fs[0].center.None? then None
    else
      match ProjectAll(fs[1..])
      case None => None
      case Some(rest) => Some([ToLugar(fs[0])] + rest)
  }

  /**
   * The candidates `ciudad` returns for a geocoding response: `None` is a
   * failed request or a response without `features`. Every failure gives [].
   */
  function Ciudad<C>(response: Option<seq<Feature<C>>>): (r: seq<Lugar<C>>)
    ensures response.None? ==> r == []
    ensures response.Some? && !AllCentered(response.value) ==> r == []
    ensures response.Some? && AllCentered(response.value) ==>
              |r| == |response.value|
              && forall k :: 0 <= k < |r| ==> r[k] == ToLugar(response.value[k])
  {
    match response
    case None => []
    case Some(features) =>
      match ProjectAll(features)
      case None => []
      case Some(lugares) => lugares
  }
}
