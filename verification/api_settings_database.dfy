/**
 * APISettingsDatabase (third generation): the api_settings table behind the service list, as
 * rows in ascending id order with the id AUTOINCREMENT hands out next, and the number of update
 * notifications broadcast so far.
 *
 * SearchClient.Settings and its APIType enum belong to norilib, which is not part of this
 * model: an API type is its ordinal, which is what the table stores.
 */
module ApiSettingsDatabase {
  import opened Wrappers

  /** SearchClient.Settings: API type ordinal, name, endpoint, and the optional credentials. */
  datatype Settings = Settings(
    apiType: nat,
    name: Option<string>,
    endpoint: Option<string>,
    username: Option<string>,
    password: Option<string>)

  /** A stored row: its id and its columns (name and endpoint_url are NOT NULL). */
  datatype Row = Row(id: int, apiType: nat, name: string, endpoint: string, username: Option<string>, password: Option<string>)

  datatype Db = Db(rows: seq<Row>, nextId: int, notifications: nat)

  predicate Valid(db: Db) {
    0 < db.nextId
    && (forall i, j :: 0 <= i < j < |db.rows| ==> db.rows[i].id < db.rows[j].id)
    && (forall i :: 0 <= i < |db.rows| ==> 0 < db.rows[i].id < db.nextId)
  }

  predicate Storable(s: Settings) {
    s.name.Some? && s.endpoint.Some?
  }

  /** searchClientSettingsToContentValues, as the row it makes under a given id. */
  function ToRow(id: int, s: Settings): Row
    requires Storable(s)
  {
    Row(id, s.apiType, s.name.value, s.endpoint.value, s.username, s.password)
  }

  /** cursorToSearchClientSettings. */
  function FromRow(r: Row): Settings
  {
    Settings(r.apiType, Some(r.name), Some(r.endpoint), r.username, r.password)
  }

  /** Settings to a row and back again keep all five fields. */
  lemma RowRoundTrip(id: int, s: Settings)
    requires Storable(s)
    ensures FromRow(ToRow(id, s)) == s
    ensures ToRow(id, s).id == id
  {
  }

  /** onCreate: the table holds the Safebooru row, GELBOORU's ordinal given, no credentials. */
  function Fresh(gelbooru: nat): (db: Db)
    ensures Valid(db)
  {
    Db([Row(1, gelbooru, "Safebooru", "http://safebooru.org", None, None)], 2, 0)
  }

  /** The position of the row with the given id, if any. */
  function Find(rows: seq<Row>, id: int): (k: int)
    ensures -1 <= k < |rows|
    ensures k >= 0 ==> rows[k].id == id
    ensures k == -1 ==> forall i :: 0 <= i < |rows| ==> rows[i].id != id
  {
    if rows == [] then -1
    else
      var k := Find(rows[..|rows| - 1], id);
      if k >= 0 then k else if rows[|rows| - 1].id == id then |rows| - 1 else -1
  }

  /** get(id): the settings of the row with that id, or null. */
  function Get(db: Db, id: int): (r: Option<Settings>)
    ensures r.None? <==> forall i :: 0 <= i < |db.rows| ==> db.rows[i].id != id
    ensures r.Some? ==> exists i :: 0 <= i < |db.rows| && db.rows[i].id == id && r.value == FromRow(db.rows[i])
  {
    var k := Find(db.rows, id);
    if k < 0 then None else Some(FromRow(db.rows[k]))
  }

  /** getAll(): (id, settings) for every row, by ascending id. */
  function GetAll(db: Db): (r: seq<(int, Settings)>)
    ensures |r| == |db.rows|
    ensures forall i :: 0 <= i < |r| ==> r[i] == (db.rows[i].id, FromRow(db.rows[i]))
    ensures Valid(db) ==> forall i, j :: 0 <= i < j < |r| ==> r[i].0 < r[j].0
  {
    seq(|db.rows|, i requires 0 <= i < |db.rows| => (db.rows[i].id, FromRow(db.rows[i])))
  }

  /**
   * insert(settings): the new row's id, or -1 when a NULL name or endpoint violates NOT NULL
   * (SQLiteDatabase.insert reports that instead of throwing). One notification either way.
   */
  function Insert(db: Db, s: Settings): (r: (Db, int))
    ensures r.0.notifications == db.notifications + 1
    ensures !Storable(s) ==> r.1 == -1
    ensures !Storable(s) ==> r.0.rows == db.rows && r.0.nextId == db.nextId
    ensures Storable(s) ==> r.0.rows == db.rows + [ToRow(db.nextId, s)] && r.1 == db.nextId && r.0.nextId == db.nextId + 1
  {
    if !Storable(s) then (db.(notifications := db.notifications + 1), -1)
    else (Db(db.rows + [ToRow(db.nextId, s)], db.nextId + 1, db.notifications + 1), db.nextId)
  }

  /**
   * update(id, settings): the number of rows changed. Overwriting a row with a NULL name or
   * endpoint throws a constraint error, SqlConstraint here (update, unlike insert, does not swallow it). One
   * notification whenever it returns.
   */
  function Update(db: Db, id: int, s: Settings): (r: Result<(Db, int)>)
    ensures r.Err? <==> Get(db, id).Some? && !Storable(s)
    ensures r.Err? ==> r.error == SqlConstraint
    ensures r.Ok? ==> r.value.1 == (if Get(db, id).Some? then 1 else 0)
    ensures r.Ok? ==> r.value.0.nextId == db.nextId && r.value.0.notifications == db.notifications + 1
    ensures r.Ok? ==> |r.value.0.rows| == |db.rows|
    ensures r.Ok? ==> forall i :: 0 <= i < |db.rows| ==>
              r.value.0.rows[i] == db.rows[i] || (db.rows[i].id == id && Storable(s) && r.value.0.rows[i] == ToRow(id, s))
  {
    var k := Find(db.rows, id);
    if k < 0 then Ok((db.(notifications := db.notifications + 1), 0))
    else if !Storable(s) then Err(SqlConstraint)
    else Ok((Db(db.rows[k := ToRow(id, s)], db.nextId, db.notifications + 1), 1))
  }

  /** The rows without the one at position k; the later ones move up by one. */
  function RemoveAt(rows: seq<Row>, k: nat): (r: seq<Row>)
    requires k < |rows|
    ensures |r| == |rows| - 1
    ensures forall i :: 0 <= i < |r| ==> r[i] == rows[if i < k then i else i + 1]
  {
    rows[..k] + rows[k + 1..]
  }

  /** delete(id): the number of rows removed; one notification. */
  function Delete(db: Db, id: int): (r: (Db, int))
    ensures r.1 == (if Get(db, id).Some? then 1 else 0)
    ensures r.0.nextId == db.nextId && r.0.notifications == db.notifications + 1
    ensures |r.0.rows| == |db.rows| - r.1
    ensures r.1 == 0 ==> r.0.rows == db.rows
    ensures forall i :: 0 <= i < |r.0.rows| ==> r.0.rows[i] in db.rows
  {
    var k := Find(db.rows, id);
    if k < 0 then (db.(notifications := db.notifications + 1), 0)
    else (Db(RemoveAt(db.rows, k), db.nextId, db.notifications + 1), 1)
  }

  // ---------------------------------------------------------------------------------------------
  // The store's contract

  /** A fresh database lists exactly the Safebooru settings, GELBOORU, without credentials. */
  lemma FreshHoldsSafebooru(gelbooru: nat)
    ensures GetAll(Fresh(gelbooru)) == [(1, Settings(gelbooru, Some("Safebooru"), Some("http://safebooru.org"), None, None))]
    ensures Get(Fresh(gelbooru), 1).Some?
  {
    assert Fresh(gelbooru).rows[0].id == 1;
  }

  /** Every operation keeps the ids ascending and below the next id. */
  lemma InsertKeepsValid(db: Db, s: Settings)
    requires Valid(db)
    ensures Valid(Insert(db, s).0)
  {
  }

  lemma UpdateKeepsValid(db: Db, id: int, s: Settings)
    requires Valid(db) && Update(db, id, s).Ok?
    ensures Valid(Update(db, id, s).value.0)
    ensures forall i :: 0 <= i < |db.rows| ==> Update(db, id, s).value.0.rows[i].id == db.rows[i].id
  {
  }

  lemma DeleteKeepsValid(db: Db, id: int)
    requires Valid(db)
    ensures Valid(Delete(db, id).0)
  {
    var k := Find(db.rows, id);
    if k >= 0 {
      var d := Delete(db, id).0;
      forall i, j | 0 <= i < j < |d.rows| ensures d.rows[i].id < d.rows[j].id {
        assert d.rows[i] == db.rows[if i < k then i else i + 1];
        assert d.rows[j] == db.rows[if j < k then j else j + 1];
      }
    }
  }

  /** In a valid table the row with a given id is the only one. */
  lemma UniqueIds(db: Db, i: int, j: int)
    requires Valid(db) && 0 <= i < |db.rows| && 0 <= j < |db.rows| && db.rows[i].id == db.rows[j].id
    ensures i == j
  {
  }

  /** insert returns a new id, and get of it gives back the same type, name, endpoint and credentials. */
  lemma InsertThenGet(db: Db, s: Settings)
    requires Valid(db) && Storable(s)
    ensures var (d, id) := Insert(db, s);
            id > 0 && Get(d, id) == Some(s) && Get(db, id).None?
  {
    var (d, id) := Insert(db, s);
    InsertKeepsValid(db, s);
    var n := |db.rows|;
    assert d.rows[n].id == id;
    var k := Find(d.rows, id);
    if k != n {
      UniqueIds(d, k, n);
    }
  }

  /**
   * update of an existing id changes one row, get then reflects the new values, and every other
   * id reads as before; update of an absent id changes nothing.
   */
  lemma UpdateThenGet(db: Db, id: int, s: Settings, other: int)
    requires Valid(db) && Storable(s) && other != id
    ensures var r := Update(db, id, s);
            r.Ok? && Get(r.value.0, other) == Get(db, other)
            && (Get(db, id).Some? ==> r.value.1 == 1 && Get(r.value.0, id) == Some(s))
            && (Get(db, id).None? ==> r.value.1 == 0 && r.value.0.rows == db.rows)
  {
    var k := Find(db.rows, id);
    if k >= 0 {
      var d := Update(db, id, s).value.0;
      UpdateKeepsValid(db, id, s);
      var k2 := Find(d.rows, id);
      if k2 != k {
        UniqueIds(d, k, k2);
      }
      var o := Find(d.rows, other);
      var o2 := Find(db.rows, other);
      if o >= 0 {
        assert db.rows[o] == d.rows[o];
        if o2 != o {
          UniqueIds(db, o, o2);
        }
      }
    }
  }

  /** delete of an existing id removes one row, and get of it then returns null. */
  lemma DeleteRemoves(db: Db, id: int)
    requires Valid(db)
    ensures var (d, n) := Delete(db, id);
            Get(d, id).None? && n == (if Get(db, id).Some? then 1 else 0)
  {
    var k := Find(db.rows, id);
    if k >= 0 {
      var d := Delete(db, id).0;
      forall i | 0 <= i < |d.rows| ensures d.rows[i].id != id {
        var i' := if i < k then i else i + 1;
        if db.rows[i'].id == id {
          UniqueIds(db, i', k);
        }
      }
    }
  }

  /** In a valid table get finds a row by its id. */
  lemma GetAt(db: Db, i: int)
    requires Valid(db) && 0 <= i < |db.rows|
    ensures Get(db, db.rows[i].id) == Some(FromRow(db.rows[i]))
  {
    var k := Find(db.rows, db.rows[i].id);
    UniqueIds(db, i, k);
  }

  /** delete leaves every other id reading as before. */
  lemma DeleteKeepsOthers(db: Db, id: int, other: int)
    requires Valid(db) && other != id
    ensures Get(Delete(db, id).0, other) == Get(db, other)
  {
    if Find(db.rows, id) >= 0 {
      if Find(db.rows, other) >= 0 {
        DeleteKeepsFound(db, id, other);
      } else {
        DeleteKeepsMissing(db, id, other);
      }
    }
  }

  lemma DeleteKeepsFound(db: Db, id: int, other: int)
    requires Valid(db) && other != id && Find(db.rows, id) >= 0 && Find(db.rows, other) >= 0
    ensures Get(Delete(db, id).0, other) == Get(db, other)
  {
    var k := Find(db.rows, id);
    var o := Find(db.rows, other);
    DeleteKeepsValid(db, id);
    assert Delete(db, id).0 == Db(RemoveAt(db.rows, k), db.nextId, db.notifications + 1);
    GetAt(db, o);
    RemovedStillFound(db, k, o);
  }

  lemma DeleteKeepsMissing(db: Db, id: int, other: int)
    requires Valid(db) && Find(db.rows, id) >= 0 && Find(db.rows, other) < 0
    ensures Get(Delete(db, id).0, other) == Get(db, other)
  {
    var k := Find(db.rows, id);
    assert Delete(db, id).0 == Db(RemoveAt(db.rows, k), db.nextId, db.notifications + 1);
    RemovedStillMissing(db, k, other);
  }

  lemma RemovedStillFound(db: Db, k: int, o: int)
    requires Valid(db) && 0 <= k < |db.rows| && 0 <= o < |db.rows| && o != k
    requires Valid(Db(RemoveAt(db.rows, k), db.nextId, db.notifications + 1))
    ensures Get(Db(RemoveAt(db.rows, k), db.nextId, db.notifications + 1), db.rows[o].id) == Some(FromRow(db.rows[o]))
  {
    var d := Db(RemoveAt(db.rows, k), db.nextId, db.notifications + 1);
    var o' := if o < k then o else o - 1;
    assert d.rows[o'] == db.rows[o];
    GetAt(d, o');
  }

  lemma RemovedStillMissing(db: Db, k: int, other: int)
    requires 0 <= k < |db.rows|
    requires forall i :: 0 <= i < |db.rows| ==> db.rows[i].id != other
    ensures forall i :: 0 <= i < |RemoveAt(db.rows, k)| ==> RemoveAt(db.rows, k)[i].id != other
  {
  }

  /** Insert, update and delete each broadcast exactly one update notification, whatever they change. */
  lemma OneNotificationEach(db: Db, id: int, s: Settings)
    ensures Insert(db, s).0.notifications == db.notifications + 1
    ensures Update(db, id, s).Ok? ==> Update(db, id, s).value.0.notifications == db.notifications + 1
    ensures Delete(db, id).0.notifications == db.notifications + 1
  {
  }
}
