/**
 * APISettingsActivity (third generation): the service list. Adding or editing a service starts
 * API type detection and registers a one-shot receiver for its result; the receiver stores the
 * settings under the detected API type, or shows why detection failed.
 *
 * The detection service and its result codes belong to norilib, which is not part of this
 * model: a result is a Detection, and the number of APIType values is a parameter.
 */
module ApiSettingsActivity {
  import opened Wrappers
  import opened ApiSettingsDatabase

  /** The row id that makes editService insert instead of update. */
  const RowIdInsert: int := -1

  /** What a detection broadcast reports; a code matching none of the four constants is Unrecognised. */
  datatype Detection = Detected(apiType: int) | FailInvalidUrl | FailNetwork | FailNoApi | Unrecognised

  /** The three error toasts. */
  datatype Toast = ServiceUriInvalid | NoNetwork | NoServiceAtGivenUri

  /** One editService call: the row to update (or RowIdInsert) and the dialog's four texts. */
  datatype Request = Request(rowId: int, name: string, url: string, username: string, passphrase: string)

  /**
   * The activity: the database, the receivers still registered (oldest first), the endpoints
   * handed to the detection service, the toasts shown, and the list the loader delivered last
   * (null before the first load and after a reset).
   */
  datatype Activity = Activity(
    db: Db,
    receivers: seq<Request>,
    probes: seq<string>,
    toasts: seq<Toast>,
    settingsList: Option<seq<(int, Settings)>>)

  /** The settings a successful detection stores for a request. */
  function SettingsFor(q: Request, apiType: nat): (s: Settings)
    ensures Storable(s)
  {
    Settings(apiType, Some(q.name), Some(q.url), Some(q.username), Some(q.passphrase))
  }

  /** The toast a failed detection shows; none for success or an unrecognised code. */
  function Message(d: Detection): (t: Option<Toast>)
    ensures t.Some? <==> d.FailInvalidUrl? || d.FailNetwork? || d.FailNoApi?
    ensures t == Some(ServiceUriInvalid) <==> d.FailInvalidUrl?
    ensures t == Some(NoNetwork) <==> d.FailNetwork?
  {
    match d
    case FailInvalidUrl => Some(ServiceUriInvalid)
    case FailNetwork => Some(NoNetwork)
    case FailNoApi => Some(NoServiceAtGivenUri)
    case _ => None
  }

  /**
   * editService: the request waits for its detection result, and the endpoint goes to the
   * detection service; nothing is stored yet.
   */
  function EditService(a: Activity, rowId: int, name: string, url: string, username: string, passphrase: string): (r: Activity)
    ensures r.receivers == a.receivers + [Request(rowId, name, url, username, passphrase)]
    ensures r.probes == a.probes + [url]
    ensures r.db == a.db && r.toasts == a.toasts && r.settingsList == a.settingsList
  {
    a.(receivers := a.receivers + [Request(rowId, name, url, username, passphrase)], probes := a.probes + [url])
  }

  /** addService: editService on the insert row id. */
  function AddService(a: Activity, name: string, url: string, username: string, passphrase: string): (r: Activity)
    ensures |r.receivers| == |a.receivers| + 1
    ensures r.receivers[|a.receivers|].rowId == RowIdInsert
    ensures r.receivers[..|a.receivers|] == a.receivers
  {
    EditService(a, RowIdInsert, name, url, username, passphrase)
  }

  /**
   * One receiver's onReceive: on success the settings are inserted (insert row id) or the row
   * updated, under the APIType whose ordinal was reported (an ordinal outside the enum throws);
   * on a failure one toast and no database change.
   */
  function Receive(db: Db, q: Request, d: Detection, typeCount: nat): (r: Result<(Db, Option<Toast>)>)
    ensures !d.Detected? ==> r == Ok((db, Message(d)))
    ensures d.Detected? ==> (r.Ok? <==> 0 <= d.apiType < typeCount)
    ensures r.Ok? && d.Detected? ==> r.value.1.None?
  {
    match d
    case Detected(t) =>
      if t < 0 || t >= typeCount then Err(IndexOutOfBounds)
      else
        var s := SettingsFor(q, t);
        if q.rowId == RowIdInsert then Ok((Insert(db, s).0, None))
        else
          (match Update(db, q.rowId, s)
           case Err(e) => Err(e)
           case Ok((db', _)) => Ok((db', None)))
    case _ => Ok((db, Message(d)))
  }

  /** One broadcast reaches every registered receiver, oldest first. */
  function Deliver(db: Db, qs: seq<Request>, d: Detection, typeCount: nat): (r: Result<(Db, seq<Toast>)>)
    ensures !d.Detected? ==> r.Ok? && r.value.0 == db
    ensures !d.Detected? ==> |r.value.1| == (if Message(d).Some? then |qs| else 0)
    ensures !d.Detected? ==> forall i :: 0 <= i < |r.value.1| ==> r.value.1[i] == Message(d).value
    ensures d.Detected? && 0 <= d.apiType < typeCount ==> r.Ok? && r.value.1 == []
    ensures d.Detected? && !(0 <= d.apiType < typeCount) && qs != [] ==> r == Err(IndexOutOfBounds)
    decreases |qs|
  {
    if qs == [] then Ok((db, []))
    else
      match Receive(db, qs[0], d, typeCount)
      case Err(e) => Err(e)
      case Ok((db1, t)) =>
        match Deliver(db1, qs[1..], d, typeCount)
        case Err(e) => Err(e)
        case Ok((db2, ts)) => Ok((db2, (if t.Some? then [t.value] else []) + ts))
  }

  /**
   * A detection broadcast: every registered receiver handles it and unregisters itself, so each
   * editService consumes exactly one result.
   */
  function OnBroadcast(a: Activity, d: Detection, typeCount: nat): (r: Result<Activity>)
    ensures r.Ok? ==> r.value.receivers == [] && r.value.probes == a.probes && r.value.settingsList == a.settingsList
    ensures !d.Detected? ==> r.Ok? && r.value.db == a.db && |r.value.toasts| >= |a.toasts|
  {
    match Deliver(a.db, a.receivers, d, typeCount)
    case Err(e) => Err(e)
    case Ok((db, ts)) => Ok(a.(db := db, receivers := [], toasts := a.toasts + ts))
  }

  /**
   * Adding a service whose type is detected inserts its settings under a new id, and the
   * database then returns them for that id.
   */
  lemma AddThenDetectedInserts(a: Activity, name: string, url: string, username: string, passphrase: string, t: nat, typeCount: nat)
    requires Valid(a.db) && a.receivers == [] && t < typeCount
    ensures var r := OnBroadcast(AddService(a, name, url, username, passphrase), Detected(t), typeCount);
            var s := Settings(t, Some(name), Some(url), Some(username), Some(passphrase));
            r.Ok? && r.value.db == Insert(a.db, s).0 && Get(r.value.db, a.db.nextId) == Some(s)
            && r.value.toasts == a.toasts
  {
    var q := Request(RowIdInsert, name, url, username, passphrase);
    var s := SettingsFor(q, t);
    assert AddService(a, name, url, username, passphrase).receivers == [q];
    var d := Insert(a.db, s).0;
    assert Receive(a.db, q, Detected(t), typeCount) == Ok((d, None));
    assert [q][1..] == [];
    assert Deliver(d, [], Detected(t), typeCount) == Ok((d, []));
    assert Deliver(a.db, [q], Detected(t), typeCount) == Ok((d, []));
    assert a.toasts + [] == a.toasts;
    InsertThenGet(a.db, s);
  }

  /**
   * Editing a stored service whose type is detected overwrites exactly that row: it reads back
   * as the new settings and every other id reads as before.
   */
  lemma EditThenDetectedUpdates(a: Activity, rowId: int, name: string, url: string, username: string, passphrase: string,
                                t: nat, typeCount: nat, other: int)
    requires Valid(a.db) && a.receivers == [] && t < typeCount
    requires rowId != RowIdInsert && Get(a.db, rowId).Some? && other != rowId
    ensures var r := OnBroadcast(EditService(a, rowId, name, url, username, passphrase), Detected(t), typeCount);
            var s := Settings(t, Some(name), Some(url), Some(username), Some(passphrase));
            r.Ok? && Get(r.value.db, rowId) == Some(s) && Get(r.value.db, other) == Get(a.db, other)
  {
    var q := Request(rowId, name, url, username, passphrase);
    var s := SettingsFor(q, t);
    assert EditService(a, rowId, name, url, username, passphrase).receivers == [q];
    UpdateThenGet(a.db, rowId, s, other);
    var d := Update(a.db, rowId, s).value.0;
    assert Receive(a.db, q, Detected(t), typeCount) == Ok((d, None));
    assert [q][1..] == [];
    assert Deliver(d, [], Detected(t), typeCount) == Ok((d, []));
    assert Deliver(a.db, [q], Detected(t), typeCount) == Ok((d, []));
  }

  /** A failed detection shows its message once per waiting request and stores nothing. */
  lemma FailureStoresNothing(a: Activity, d: Detection, typeCount: nat)
    requires Message(d).Some?
    ensures var r := OnBroadcast(a, d, typeCount);
            r.Ok? && r.value.db == a.db
            && r.value.toasts[..|a.toasts|] == a.toasts
            && |r.value.toasts| == |a.toasts| + |a.receivers|
            && forall i :: |a.toasts| <= i < |r.value.toasts| ==> r.value.toasts[i] == Message(d).value
  {
    var ts := Deliver(a.db, a.receivers, d, typeCount).value.1;
    assert OnBroadcast(a, d, typeCount).value.toasts == a.toasts + ts;
  }

  /** Once a result has been handled, a later broadcast finds no receiver and changes nothing. */
  lemma ResultConsumedOnce(a: Activity, d: Detection, d': Detection, typeCount: nat)
    requires OnBroadcast(a, d, typeCount).Ok?
    ensures var b := OnBroadcast(a, d, typeCount).value;
            OnBroadcast(b, d', typeCount) == Ok(b)
  {
    var b := OnBroadcast(a, d, typeCount).value;
    assert b.toasts + [] == b.toasts;
  }

  /** removeSetting(id): deletes the row with that id; one notification. */
  function RemoveSetting(a: Activity, id: int): (r: Activity)
    ensures r.receivers == a.receivers && r.toasts == a.toasts && r.settingsList == a.settingsList
    ensures r.db.notifications == a.db.notifications + 1
  {
    a.(db := Delete(a.db, id).0)
  }

  /** Removing a service deletes exactly its row: its id is gone and every other id reads as before. */
  lemma RemoveSettingRemoves(a: Activity, id: int, other: int)
    requires Valid(a.db) && other != id
    ensures Get(RemoveSetting(a, id).db, id).None?
    ensures Get(RemoveSetting(a, id).db, other) == Get(a.db, other)
  {
    DeleteRemoves(a.db, id);
    DeleteKeepsOthers(a.db, id, other);
  }

  // ---------------------------------------------------------------------------------------------
  // The list adapter

  /** onLoadFinished: the list is what the database loader read, every row in id order. */
  function OnLoadFinished(a: Activity): (r: Activity)
    ensures r.settingsList.Some? && |r.settingsList.value| == |a.db.rows|
    ensures Valid(a.db) ==> forall i, j :: 0 <= i < j < |r.settingsList.value| ==> r.settingsList.value[i].0 < r.settingsList.value[j].0
  {
    a.(settingsList := Some(GetAll(a.db)))
  }

  /** onLoaderReset: the list is dropped. */
  function OnLoaderReset(a: Activity): (r: Activity)
    ensures r.settingsList.None? && r.db == a.db
  {
    a.(settingsList := None)
  }

  /** getCount: the list's size, or 0 while there is no list. */
  function Count(a: Activity): (n: nat)
    ensures a.settingsList.None? ==> n == 0
    ensures a.settingsList.Some? ==> n == |a.settingsList.value|
  {
    if a.settingsList.Some? then |a.settingsList.value| else 0
  }

  /**
   * onItemClick: the edit dialog opens on the row id and settings at the position; with no list
   * the lookup throws, and so does a position past its end.
   */
  function OnItemClick(a: Activity, position: int): (r: Result<(int, Settings)>)
    ensures r.Ok? <==> 0 <= position < Count(a)
    ensures r.Ok? ==> r.value == a.settingsList.value[position]
  {
    match a.settingsList
    case None => Err(NullPointer)
    case Some(list) => if 0 <= position < |list| then Ok(list[position]) else Err(IndexOutOfBounds)
  }

  /** After a load, clicking any row opens the dialog on a stored id with exactly the stored settings. */
  lemma LoadedItemIsStored(a: Activity, position: int)
    requires Valid(a.db) && 0 <= position < |a.db.rows|
    ensures var r := OnItemClick(OnLoadFinished(a), position);
            r.Ok? && Get(a.db, r.value.0) == Some(r.value.1)
  {
    GetAt(a.db, position);
  }
}
