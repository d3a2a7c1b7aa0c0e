/** System preferences: settings are rows keyed by `setting_key` holding text; switches
    store "true"/"false" and the other controls fall back to a default when the value is
    missing or empty. */
module Preferences {
  import opened Wrappers
  import opened Schema
  import opened Store
  import opened Text
  import opened Ui
  import Seqs

  function HasKey(key: string): SettingRow -> bool {
    (s: SettingRow) => s.settingKey == key
  }

  /** `getSetting(key)`: the first loaded row with that key. */
  function GetSetting(settings: seq<SettingRow>, key: string): (r: Option<SettingRow>)
    ensures r.None? <==> forall i :: 0 <= i < |settings| ==> settings[i].settingKey != key
    ensures r.Some? ==> r.value in settings && r.value.settingKey == key
    ensures r.Some? ==>
      exists i :: 0 <= i < |settings| && settings[i] == r.value
        && (forall j :: 0 <= j < i ==> settings[j].settingKey != key)
  {
    var r := Seqs.Find(settings, HasKey(key));
    if r.Some? then
      assert settings[Seqs.FirstIndex(settings, HasKey(key))] == r.value;
      r
    else r
  }

  /** `getSetting(key)?.setting_value`. */
  function ValueOf(settings: seq<SettingRow>, key: string): (r: Option<string>)
    ensures (forall i :: 0 <= i < |settings| ==> settings[i].settingKey != key) ==> r.None?
    ensures var i := Seqs.FirstIndex(settings, HasKey(key)); i < |settings| ==> r == settings[i].settingValue
  {
    match GetSetting(settings, key)
    case None => None
    case Some(s) => s.settingValue
  }

  /** A switch is on iff the stored value is exactly "true". */
  function SwitchOn(settings: seq<SettingRow>, key: string): (on: bool)
    ensures on <==> var i := Seqs.FirstIndex(settings, HasKey(key)); i < |settings| && settings[i].settingValue == Some("true")
  {
    ValueOf(settings, key) == Some("true")
  }

  /** `checked.toString()`. */
  function BoolText(b: bool): (s: string)
    ensures s == "true" <==> b
    ensures s == "false" <==> !b
  {
    if b then "true" else "false"
  }

  /** `getSetting(key)?.setting_value || fallback`. */
  function ValueOr(settings: seq<SettingRow>, key: string, fallback: string): (r: string)
    ensures r == fallback <==> ValueOf(settings, key) in {None, Some(""), Some(fallback)}
    ensures r != fallback ==> ValueOf(settings, key) == Some(r)
  {
    OrElse(ValueOf(settings, key), fallback)
  }

  const EmailNotifications: string := "email_notifications"
  const PublicReports: string := "public_reports"

  function DateFormat(settings: seq<SettingRow>): string {
    ValueOr(settings, "date_format", "MM/DD/YYYY")
  }

  function RecordsPerPage(settings: seq<SettingRow>): string {
    ValueOr(settings, "records_per_page", "10")
  }

  function AutoArchiveDays(settings: seq<SettingRow>): string {
    ValueOr(settings, "auto_archive_days", "365")
  }

  /** A missing row, a `null` value and an empty value all show the control's default. */
  lemma DefaultsWhenUnset(settings: seq<SettingRow>)
    ensures ValueOf(settings, "date_format") in {None, Some("")} ==> DateFormat(settings) == "MM/DD/YYYY"
    ensures ValueOf(settings, "records_per_page") in {None, Some("")} ==> RecordsPerPage(settings) == "10"
    ensures ValueOf(settings, "auto_archive_days") in {None, Some("")} ==> AutoArchiveDays(settings) == "365"
    ensures GetSetting(settings, EmailNotifications).None? ==> !SwitchOn(settings, EmailNotifications)
  {
  }

  datatype UpdateOutcome = UpdateOutcome(table: Table<SettingRow>, toast: Toast, reload: bool)

  function SetValue(key: string, value: string): SettingRow -> SettingRow {
    (s: SettingRow) => if s.settingKey == key then s.(settingValue := Some(value)) else s
  }

  /** `updateSetting(key, value)`: write `setting_value` on every row with that key, and
      reload the list only when the store accepted. */
  function UpdateSetting(t: Table<SettingRow>, key: string, value: string, reply: Reply): (r: UpdateOutcome)
    ensures r.reload <==> reply.Accepted?
    ensures r.table.Keys == t.Keys
    ensures reply.Refused? ==> r.table == t && r.toast == Error("Failed to update setting")
    ensures reply.Accepted? ==> r.toast == Success("Setting updated successfully")
    ensures reply.Accepted? ==> forall k :: k in t && t[k].settingKey == key ==>
      r.table[k] == t[k].(settingValue := Some(value))
    ensures forall k :: k in t && t[k].settingKey != key ==> r.table[k] == t[k]
  {
    if reply.Accepted? then
      UpdateOutcome(UpdateWhere(t, HasKey(key), SetValue(key, value)), Success("Setting updated successfully"), true)
    else UpdateOutcome(t, Error("Failed to update setting"), false)
  }

  /** `loadSettings`: a `null` answer keeps the list already shown. */
  function LoadSettings(shown: seq<SettingRow>, select: Option<seq<SettingRow>>): (r: seq<SettingRow>)
    ensures select.Some? ==> r == select.value
    ensures select.None? ==> r == shown
  {
    select.GetOr(shown)
  }

  /** Every listed row is a row of the table. */
  predicate ListedFrom(listing: seq<SettingRow>, t: Table<SettingRow>) {
    forall i :: 0 <= i < |listing| ==> exists k :: k in t && t[k] == listing[i]
  }

  /** Flipping a switch and reloading after the accepted write shows the switch in the
      position it was flipped to, provided the setting exists. */
  lemma SwitchRoundTrip(t: Table<SettingRow>, key: string, checked: bool, listing: seq<SettingRow>)
    requires exists i :: 0 <= i < |listing| && listing[i].settingKey == key
    requires ListedFrom(listing, UpdateSetting(t, key, BoolText(checked), Accepted).table)
    ensures SwitchOn(LoadSettings([], Some(listing)), key) <==> checked
  {
    var after := UpdateSetting(t, key, BoolText(checked), Accepted).table;
    var row := GetSetting(listing, key).value;
    var i :| 0 <= i < |listing| && listing[i] == row;
    var k :| k in after && after[k] == listing[i];
    assert row.settingValue == Some(BoolText(checked));
  }
}
