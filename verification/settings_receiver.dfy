/**
 * ServiceSettingChangesReceiver (first generation): stores the settings a successful type
 * detection reports in the service_settings table, and announces that the settings changed.
 */
module SettingChangesReceiver {
  import opened Wrappers
  import opened JavaInts
  import opened ServiceSettingsProvider
  import ResourceTypeDetect

  const ResultAction: string := "pe.moe.nori.services.ResourceTypeDetectService.result"

  /** What a broadcast did: the table afterwards and the number of update broadcasts sent. */
  datatype Effect = Effect(table: Table, updates: nat)

  /**
   * db.insert with the row's ContentValues: a fresh id, req_auth 1 with both credentials or 0
   * with none. A NULL name or API URL violates NOT NULL, and insert then adds nothing.
   */
  function Insert(t: Table, s: ServiceSettings): (r: Table)
    ensures s.name.None? || s.apiUrl.None? ==> r == t
    ensures s.name.Some? && s.apiUrl.Some? ==>
              |r.rows| == |t.rows| + 1 && r.rows[..|t.rows|] == t.rows && r.nextId == t.nextId + 1
              && var row := r.rows[|t.rows|];
                 row.id == t.nextId && row.name == s.name.value && row.apiUrl == s.apiUrl.value
                 && (row.reqAuth == 1 <==> s.requiresAuthentication)
                 && (!s.requiresAuthentication ==> row.username.None? && row.passphrase.None?)
  {
    if s.name.None? || s.apiUrl.None? then t
    else
      var row := Row(t.nextId, s.name.value, s.serviceType, s.subtype, s.apiUrl.value,
                     if s.requiresAuthentication then 1 else 0,
                     if s.requiresAuthentication then s.username else None,
                     if s.requiresAuthentication then s.passphrase else None);
      Table(t.rows + [row], t.nextId + 1)
  }

  /** upsertSettingsChange: a negative id inserts, any other id is left alone; one update broadcast either way. */
  function Upsert(t: Table, s: ServiceSettings): (r: Effect)
    ensures r.updates == 1
    ensures s.id >= 0 ==> r.table == t
  {
    Effect(if s.id < 0 then Insert(t, s) else t, 1)
  }

  /**
   * onReceive: only a detection result with status OK is stored; a missing status reads as -1.
   * A result without settings throws on the first field access.
   */
  function OnReceive(t: Table, action: string, status: int, settings: Option<ServiceSettings>): (r: Result<Effect>)
    ensures action != ResultAction || status != ResourceTypeDetect.StatusOk ==> r == Ok(Effect(t, 0))
    ensures r.Err? <==> action == ResultAction && status == ResourceTypeDetect.StatusOk && settings.None?
  {
    if action == ResultAction && status == ResourceTypeDetect.StatusOk then
      if settings.None? then Err(NullPointer) else Ok(Upsert(t, settings.value))
    else Ok(Effect(t, 0))
  }

  /** Inserting keeps the table's ids ascending and below the next id. */
  lemma InsertKeepsValid(t: Table, s: ServiceSettings)
    requires Valid(t)
    ensures Valid(Insert(t, s))
  {
  }

  /**
   * A new service with a name and URL becomes one more row at the end, the others unchanged,
   * and loading that row gives back the settings under their new id, with credentials only
   * when the service requires authentication.
   */
  lemma InsertThenLoad(t: Table, s: ServiceSettings)
    requires Valid(t) && s.id < 0 && s.name.Some? && s.apiUrl.Some?
    requires Wrap(t.nextId) == t.nextId
    ensures var r := Upsert(t, s).table;
            |r.rows| == |t.rows| + 1 && r.rows[..|t.rows|] == t.rows && r.nextId == t.nextId + 1
            && Load(r.rows[|t.rows|]) == Parcelled(s).(id := t.nextId)
  {
  }
}
