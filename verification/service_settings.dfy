/**
 * ServiceSettingsProvider (first generation): the settings of one configured service, their
 * parcel form, the client they select, the service_settings table with its seed row, and the
 * loader that turns rows back into settings.
 */
module ServiceSettingsProvider {
  import opened Wrappers
  import opened JavaInts
  import opened Parcels
  import LegacyClient

  const TypeDanbooru: Int32 := 0
  const TypeDanbooruLegacy: Int32 := 1
  const SubtypeDanbooru: Int32 := 0
  const SubtypeGelbooru: Int32 := 1
  const SubtypeShimmie2: Int32 := 2

  /** ServiceSettings; a field the Java code leaves unset is 0, false or null. */
  datatype ServiceSettings = ServiceSettings(
    id: Int32,
    name: Option<string>,
    serviceType: Int32,
    subtype: Int32,
    apiUrl: Option<string>,
    requiresAuthentication: bool,
    username: Option<string>,
    passphrase: Option<string>)

  /** new ServiceSettings(): every field at its Java default. */
  const Empty: ServiceSettings := ServiceSettings(0, None, 0, 0, None, false, None, None)

  // ---------------------------------------------------------------------------------------------
  // Parcel

  /** writeToParcel: id, name, type, subtype, apiUrl, the flag as a byte, then the credentials if set. */
  function WriteSettings<T>(s: ServiceSettings): (r: seq<Slot<T>>)
    ensures |r| == if s.requiresAuthentication then 8 else 6
  {
    [IntSlot(s.id), StrSlot(s.name), IntSlot(s.serviceType), IntSlot(s.subtype), StrSlot(s.apiUrl)]
    + WriteByte(if s.requiresAuthentication then 1 else 0)
    + (if s.requiresAuthentication then [StrSlot(s.username), StrSlot(s.passphrase)] else [])
  }

  /** ServiceSettings(Parcel): the same order; the credentials are read only when the flag byte is 1. */
  function ReadSettings<T>(p: seq<Slot<T>>, pos: nat): (r: Result<(ServiceSettings, nat)>)
    ensures r.Ok? && !r.value.0.requiresAuthentication ==> r.value.0.username.None? && r.value.0.passphrase.None?
  {
    match ReadInt(p, pos)
    case Err(e) => Err(e)
    case Ok((id, p1)) =>
    match ReadString(p, p1)
    case Err(e) => Err(e)
    case Ok((name, p2)) =>
    match ReadInt(p, p2)
    case Err(e) => Err(e)
    case Ok((serviceType, p3)) =>
    match ReadInt(p, p3)
    case Err(e) => Err(e)
    case Ok((subtype, p4)) =>
    match ReadString(p, p4)
    case Err(e) => Err(e)
    case Ok((apiUrl, p5)) =>
    match ReadByte(p, p5)
    case Err(e) => Err(e)
    case Ok((flag, p6)) =>
    var base := ServiceSettings(id, name, serviceType, subtype, apiUrl, flag == 1, None, None);
    if flag != 1 then Ok((base, p6))
    else
      match ReadString(p, p6)
      case Err(e) => Err(e)
      case Ok((username, p7)) =>
      match ReadString(p, p7)
      case Err(e) => Err(e)
      case Ok((passphrase, p8)) => Ok((base.(username := username, passphrase := passphrase), p8))
  }

  /** What survives a parcel: everything, except credentials of a service that needs none. */
  function Parcelled(s: ServiceSettings): ServiceSettings
  {
    if s.requiresAuthentication then s else s.(username := None, passphrase := None)
  }

  /**
   * Reading what writeToParcel wrote gives back id, name, type, subtype, apiUrl and the flag, the
   * credentials exactly when the flag is set, and stops right after the written slots.
   */
  lemma ParcelRoundTrip<T>(s: ServiceSettings, rest: seq<Slot<T>>)
    ensures ReadSettings(WriteSettings<T>(s) + rest, 0) == Ok((Parcelled(s), |WriteSettings<T>(s)|))
  {
    var p := WriteSettings<T>(s) + rest;
    assert p[0] == IntSlot(s.id) && p[1] == StrSlot(s.name) && p[2] == IntSlot(s.serviceType);
    assert p[3] == IntSlot(s.subtype) && p[4] == StrSlot(s.apiUrl);
    assert p[5] == IntSlot(if s.requiresAuthentication then 1 else 0);
    if s.requiresAuthentication {
      assert p[6] == StrSlot(s.username) && p[7] == StrSlot(s.passphrase);
    }
  }

  // ---------------------------------------------------------------------------------------------
  // createClient

  /** The client a settings object selects; the Danbooru 2 client always talks to danbooru.donmai.us. */
  datatype Client =
    | Danbooru2Client(username: Option<string>, apiKey: Option<string>)
    | LegacyApiClient(endpoint: Option<string>, subtype: LegacyClient.Subtype)

  /** The subtype code the table stores for each DanbooruLegacy dialect. */
  function SubtypeCode(st: LegacyClient.Subtype): (c: Int32)
    ensures 0 <= c <= 2
  {
    match st
    case Danbooru => SubtypeDanbooru
    case Gelbooru => SubtypeGelbooru
    case Shimmie2 => SubtypeShimmie2
  }

  /** createClient(queue, settings): null for null settings or an unknown type or subtype. */
  function CreateClient(settings: Option<ServiceSettings>): (r: Option<Client>)
    ensures r.Some? <==> settings.Some? && (settings.value.serviceType == TypeDanbooru
                                           || (settings.value.serviceType == TypeDanbooruLegacy && 0 <= settings.value.subtype <= 2))
    ensures r.Some? && r.value.Danbooru2Client? ==> r.value == Danbooru2Client(settings.value.username, settings.value.passphrase)
    ensures r.Some? && r.value.LegacyApiClient? ==>
              r.value.endpoint == settings.value.apiUrl && SubtypeCode(r.value.subtype) == settings.value.subtype
  {
    match settings
    case None => None
    case Some(s) =>
      if s.serviceType == TypeDanbooru then Some(Danbooru2Client(s.username, s.passphrase))
      else if s.serviceType == TypeDanbooruLegacy then
        if s.subtype == SubtypeDanbooru then Some(LegacyApiClient(s.apiUrl, LegacyClient.Danbooru))
        else if s.subtype == SubtypeGelbooru then Some(LegacyApiClient(s.apiUrl, LegacyClient.Gelbooru))
        else if s.subtype == SubtypeShimmie2 then Some(LegacyApiClient(s.apiUrl, LegacyClient.Shimmie2))
        else None
      else None
  }

  /** Every DanbooruLegacy dialect is reachable: its code selects exactly it, on the stored URL. */
  lemma CreateClientInvertsCode(s: ServiceSettings, st: LegacyClient.Subtype)
    requires s.serviceType == TypeDanbooruLegacy && s.subtype == SubtypeCode(st)
    ensures CreateClient(Some(s)) == Some(LegacyApiClient(s.apiUrl, st))
  {
  }

  /** toString(): the service's name, as the service list shows it. */
  function ToString(s: ServiceSettings): (r: Option<string>)
    ensures r == Parcelled(s).name
  {
    s.name
  }

  /**
   * The service list labels settings with the name they were made with: a row loaded from the
   * table shows its name column, and settings passed through a parcel keep their label.
   */
  lemma LabelIsCreatedName<T>(row: Row, s: ServiceSettings, rest: seq<Slot<T>>)
    ensures ToString(Load(row)) == Some(row.name)
    ensures ReadSettings(WriteSettings<T>(s) + rest, 0).Ok?
    ensures ToString(ReadSettings(WriteSettings<T>(s) + rest, 0).value.0) == ToString(s)
  {
    ParcelRoundTrip<T>(s, rest);
  }

  // ---------------------------------------------------------------------------------------------
  // The service_settings table

  /** One row; req_auth defaults to 0 and the credential columns may be NULL. */
  datatype Row = Row(
    id: int,
    name: string,
    serviceType: int,
    subtype: int,
    apiUrl: string,
    reqAuth: int,
    username: Option<string>,
    passphrase: Option<string>)

  /** The rows in ascending id order, and the id AUTOINCREMENT hands out next. */
  datatype Table = Table(rows: seq<Row>, nextId: int)

  predicate Valid(t: Table) {
    0 < t.nextId
    && (forall i, j :: 0 <= i < j < |t.rows| ==> t.rows[i].id < t.rows[j].id)
    && (forall i :: 0 <= i < |t.rows| ==> 0 < t.rows[i].id < t.nextId)
  }

  /** onCreate: the table with the one Safebooru row (type 1, subtype 1, req_auth 0). */
  const Seeded: Table := Table([Row(1, "Safebooru", 1, 1, "http://safebooru.org", 0, None, None)], 2)

  /** ServiceSettingsLoader.loadInBackground, per row: req_auth is true only when it is 1. */
  function Load(row: Row): (s: ServiceSettings)
    ensures s.requiresAuthentication <==> row.reqAuth == 1
    ensures s.name == Some(row.name) && s.apiUrl == Some(row.apiUrl)
    ensures s.username == row.username && s.passphrase == row.passphrase
  {
    ServiceSettings(Wrap(row.id), Some(row.name), Wrap(row.serviceType), Wrap(row.subtype), Some(row.apiUrl),
                    row.reqAuth == 1, row.username, row.passphrase)
  }

  /** The loader without a service id: every row, in table order. */
  function LoadAll(t: Table): (r: seq<ServiceSettings>)
    ensures |r| == |t.rows|
    ensures forall i :: 0 <= i < |r| ==> r[i] == Load(t.rows[i])
  {
    seq(|t.rows|, i requires 0 <= i < |t.rows| => Load(t.rows[i]))
  }

  /**
   * A fresh installation lists one service, Safebooru, which needs no authentication and opens
   * a DanbooruLegacy client in the Gelbooru dialect on http://safebooru.org.
   */
  lemma SeededLoads()
    ensures Valid(Seeded)
    ensures |LoadAll(Seeded)| == 1
    ensures var s := LoadAll(Seeded)[0];
            s.id == 1 && s.name == Some("Safebooru") && !s.requiresAuthentication
            && CreateClient(Some(s)) == Some(LegacyApiClient(Some("http://safebooru.org"), LegacyClient.Gelbooru))
  {
    var s := LoadAll(Seeded)[0];
    assert s == Load(Seeded.rows[0]);
  }
}
